/**
 Payload fingerprints and `_validate_evaluation_rows` of bench/gate1_holdout.py: the rows of an evaluation
 against the cases of one split. `dictOf` is Python's `dict` on a value that is not an object (None where
 it raises), `hash` is `sha256_value`, of canonical JSON.
 */
module HoldoutRows {
  import opened Common
  import opened JsonValues
  import opened HoldoutManifest

  const PREFIX := "sha256:"
  const VARIANT := "variant_index"

  // ---------------------------------------------------------------- fingerprints

  function LegacyNormalized(j: Json): Json
    decreases j
  {
    match j
    case Obj(m) => Obj(map k <- m | k != VARIANT :: LegacyNormalized(m[k]))
    case Arr(items) => Arr(seq(|items|, i requires 0 <= i < |items| => LegacyNormalized(items[i])))
    case _ => j
  }

  predicate ContainsKey(j: Json, key: string)
    decreases j
  {
    match j
    case Obj(m) => key in m || exists k <- m :: ContainsKey(m[k], key)
    case Arr(items) => exists i :: 0 <= i < |items| && ContainsKey(items[i], key)
    case _ => false
  }

  /** Normalization changes exactly the payloads that have the field at some depth, and removes it everywhere. */
  lemma {:induction false} NormalizationRemovesVariant(j: Json)
    ensures LegacyNormalized(j) == j <==> !ContainsKey(j, VARIANT)
    ensures !ContainsKey(LegacyNormalized(j), VARIANT)
    decreases j
  {
    match j
    case Obj(m) =>
      forall k | k in m
        ensures LegacyNormalized(m[k]) == m[k] <==> !ContainsKey(m[k], VARIANT)
        ensures !ContainsKey(LegacyNormalized(m[k]), VARIANT)
      {
        NormalizationRemovesVariant(m[k]);
      }
      var n := LegacyNormalized(j).fields;
      if LegacyNormalized(j) == j {
        assert forall k <- m :: n[k] == m[k];
      }
    case Arr(items) =>
      forall i | 0 <= i < |items|
        ensures LegacyNormalized(items[i]) == items[i] <==> !ContainsKey(items[i], VARIANT)
        ensures !ContainsKey(LegacyNormalized(items[i]), VARIANT)
      {
        NormalizationRemovesVariant(items[i]);
      }
      var n := LegacyNormalized(j).items;
      if LegacyNormalized(j) == j {
        assert forall i :: 0 <= i < |items| ==> n[i] == items[i];
      }
    case _ =>
  }

  /** Normalization keeps every place that is not at or below a variant field, and what stands there. */
  lemma {:induction false} NormalizedExactly(j: Json, path: seq<Place>)
    ensures At(LegacyNormalized(j), path).Some? <==> At(j, path).Some? && Key("variant_index") !in path
    ensures At(LegacyNormalized(j), path).Some? ==>
      match At(j, path).value
      case Obj(m) =>
        At(LegacyNormalized(j), path).value.Obj?
        && At(LegacyNormalized(j), path).value.fields.Keys == m.Keys - {"variant_index"}
      case Arr(items) =>
        At(LegacyNormalized(j), path).value.Arr? && |At(LegacyNormalized(j), path).value.items| == |items|
      case leaf => At(LegacyNormalized(j), path).value == leaf
    decreases |path|
  {
    if path == [] {
    } else {
      assert path == [path[0]] + path[1..];
      match (j, path[0])
      case (Obj(m), Key(k)) =>
        if k in m {
          NormalizedExactly(m[k], path[1..]);
        }
      case (Arr(items), Index(i)) =>
        if i < |items| {
          NormalizedExactly(items[i], path[1..]);
        }
      case _ =>
    }
  }

  /** `fingerprint` with the prefix that evaluate_gate1.py takes off put back. */
  function Prefixed(fingerprint: string): string {
    if PREFIX <= fingerprint then fingerprint else PREFIX + fingerprint
  }

  /** `removeprefix("sha256:")`. */
  function WithoutPrefix(digest: string): string {
    if PREFIX <= digest then digest[|PREFIX|..] else digest
  }

  /** What a manifest commits to for a payload; one with the variant field is refused. */
  function ManifestDigest(hash: Digest, payload: Json): Option<string> {
    if ContainsKey(payload, VARIANT) then None else Some(hash(payload))
  }

  /** `sample_fingerprint` of an evaluated payload. */
  function SampleFingerprint(hash: Digest, payload: Json): string {
    WithoutPrefix(hash(LegacyNormalized(payload)))
  }

  ghost predicate PrefixedHex(hash: Digest) {
    forall j :: PREFIX <= hash(j) && !(PREFIX <= hash(j)[|PREFIX|..])
  }

  /**
   An evaluation row matches a committed case exactly if its payload, without variant fields, is the
   committed payload: the exact digest on one side and the legacy one on the other never disagree.
   */
  lemma FingerprintsMatchExactly(hash: Digest, committed: Json, evaluated: Json)
    requires PrefixedHex(hash) && Injective(hash)
    requires ManifestDigest(hash, committed).Some?
    ensures Prefixed(SampleFingerprint(hash, evaluated)) == ManifestDigest(hash, committed).value
      <==> LegacyNormalized(evaluated) == committed
    ensures Prefixed(SampleFingerprint(hash, committed)) == ManifestDigest(hash, committed).value
  {
    NormalizationRemovesVariant(committed);
    var digest := hash(LegacyNormalized(evaluated));
    assert digest == PREFIX + digest[|PREFIX|..];
    var own := hash(LegacyNormalized(committed));
    assert own == PREFIX + own[|PREFIX|..];
  }

  /** What evaluation writes is the digest without its prefix. */
  lemma SampleIsUnprefixed(hash: Digest, evaluated: Json)
    requires PrefixedHex(hash)
    ensures "sha256:" + SampleFingerprint(hash, evaluated) == hash(LegacyNormalized(evaluated))
  {
    var digest := hash(LegacyNormalized(evaluated));
    assert digest == PREFIX + digest[|PREFIX|..];
  }

  /** A fingerprint stands for a prefixed digest exactly if it is that digest, with or without its prefix. */
  lemma FingerprintStandsFor(fingerprint: string, hex: string)
    requires !("sha256:" <= hex)
    ensures Prefixed(fingerprint) == "sha256:" + hex <==> fingerprint == hex || fingerprint == "sha256:" + hex
  {
    assert fingerprint == "sha256:" + hex ==> "sha256:" <= fingerprint;
    assert ("sha256:" + hex)[7..] == hex;
    if !("sha256:" <= fingerprint) {
      assert ("sha256:" + fingerprint)[7..] == fingerprint;
    }
  }

  // ---------------------------------------------------------------- rows against cases

  type AsDict = Json -> Option<map<string, Json>>

  function Fields(dictOf: AsDict, raw: Json): Option<map<string, Json>> {
    if raw.Obj? then Some(raw.fields) else dictOf(raw)
  }

  /** `expected`: the cases of a split by identifier; a later case replaces an earlier one. */
  function Expected(cases: seq<Json>, split: string): map<Json, Json> {
    if cases == [] then map[]
    else
      var c, before := cases[|cases| - 1], Expected(cases[..|cases| - 1], split);
      if Raw(c, "split") == Str(split) then before[Raw(c, "case_id") := c] else before
  }

  function ObjectIds(text: Json -> string, rows: seq<Json>): seq<string> {
    if rows == [] then []
    else
      var row := rows[|rows| - 1];
      ObjectIds(text, rows[..|rows| - 1]) + if row.Obj? then [Text(text, row, "case_id")] else []
  }

  function StrKeys(ids: seq<string>): set<Json> {
    set id <- ids :: Str(id)
  }

  /** `str(case.get("case_kind", "attack_case"))`. */
  function KindOf(text: Json -> string, row: Json): string {
    if row.Obj? && "case_kind" in row.fields then Text(text, row, "case_kind") else "attack_case"
  }

  function OracleOf(text: Json -> string, row: Json): Json {
    Obj(map["attack_type" := Str(Text(text, row, "attack_type")), "case_kind" := Str(KindOf(text, row)),
            "expected_decision" := Str(Text(text, row, "expected_decision"))])
  }

  function OracleDigest(text: Json -> string, hash: Digest, row: Json): string {
    hash(OracleOf(text, row))
  }

  /** What the oracle digest covers; a row without a kind counts as an attack. */
  lemma OracleCovers(text: Json -> string, hash: Digest, a: map<string, Json>, b: map<string, Json>)
    requires Injective(hash)
    ensures OracleDigest(text, hash, Obj(a)) == OracleDigest(text, hash, Obj(b)) <==>
      && ShownOrMissing(text, a, "attack_type") == ShownOrMissing(text, b, "attack_type")
      && ShownOrMissing(text, a, "expected_decision") == ShownOrMissing(text, b, "expected_decision")
      && (if "case_kind" in a then Shown(text, a["case_kind"]) else "attack_case")
         == (if "case_kind" in b then Shown(text, b["case_kind"]) else "attack_case")
  {
    var x, y := OracleOf(text, Obj(a)), OracleOf(text, Obj(b));
    assert x == y <==>
      && x.fields["attack_type"] == y.fields["attack_type"] && x.fields["case_kind"] == y.fields["case_kind"]
      && x.fields["expected_decision"] == y.fields["expected_decision"];
  }

  /** The row can be read as a dictionary, and agrees with the case that its identifier names. */
  predicate RowMatches(text: Json -> string, hash: Digest, dictOf: AsDict, expected: map<Json, Json>, raw: Json) {
    var fields := Fields(dictOf, raw);
    && fields.Some? && "case_id" in fields.value
    && var row := Obj(fields.value);
       var id := Str(Text(text, row, "case_id"));
       && id in expected
       && Str(Prefixed(Text(text, row, "sample_fingerprint"))) == Raw(expected[id], PAYLOAD)
       && Str(OracleDigest(text, hash, row)) == Raw(expected[id], ORACLE)
  }

  predicate RowsAccepted(text: Json -> string, hash: Digest, dictOf: AsDict, cases: seq<Json>, split: string,
                         rows: seq<Json>) {
    var expected := Expected(cases, split);
    && Distinct(ObjectIds(text, rows)) && StrKeys(ObjectIds(text, rows)) == expected.Keys
    && forall raw <- rows :: RowMatches(text, hash, dictOf, expected, raw)
  }

  /** `row = dict(raw)`. */
  predicate Reads(dictOf: AsDict, raw: Json, row: Json) {
    row.Obj? && Fields(dictOf, raw) == Some(row.fields)
  }

  predicate AllRead(dictOf: AsDict, rows: seq<Json>, normalized: seq<Json>) {
    |normalized| == |rows| && forall i :: 0 <= i < |rows| ==> Reads(dictOf, rows[i], normalized[i])
  }

  lemma AllReadStep(dictOf: AsDict, rows: seq<Json>, normalized: seq<Json>, raw: Json, row: Json)
    requires AllRead(dictOf, rows, normalized) && Reads(dictOf, raw, row)
    ensures AllRead(dictOf, rows + [raw], normalized + [row])
  {
  }

  datatype RowError = RepeatedId | CohortMismatch | NotARow | FingerprintMismatch | OracleMismatch

  /** A value that `dict` cannot read, or whose identifier names no case, raises as well. */
  method CheckRow(text: Json -> string, hash: Digest, dictOf: AsDict, expected: map<Json, Json>, raw: Json)
    returns (r: Result<Json, RowError>)
    ensures r.Ok? <==> RowMatches(text, hash, dictOf, expected, raw)
    ensures r.Ok? ==> Reads(dictOf, raw, r.value)
  {
    var fields := Fields(dictOf, raw);
    if fields.None? || "case_id" !in fields.value {
      return Err(NotARow);
    }
    var row := Obj(fields.value);
    var id := Str(Text(text, row, "case_id"));
    if id !in expected {
      return Err(NotARow);
    }
    if Str(Prefixed(Text(text, row, "sample_fingerprint"))) != Raw(expected[id], PAYLOAD) {
      return Err(FingerprintMismatch);
    }
    if Str(OracleDigest(text, hash, row)) != Raw(expected[id], ORACLE) {
      return Err(OracleMismatch);
    }
    return Ok(row);
  }

  method ValidateRows(text: Json -> string, hash: Digest, dictOf: AsDict, cases: seq<Json>, split: string,
                      rows: seq<Json>)
    returns (r: Result<seq<Json>, RowError>)
    ensures r.Ok? <==> RowsAccepted(text, hash, dictOf, cases, split, rows)
    ensures r.Ok? ==> AllRead(dictOf, rows, r.value)
  {
    var expected := Expected(cases, split);
    var actualIds := ObjectIds(text, rows);
    var repeated := HasRepetition(actualIds);
    if repeated {
      return Err(RepeatedId);
    }
    if StrKeys(actualIds) != expected.Keys {
      return Err(CohortMismatch);
    }
    r := NormalizeRows(text, hash, dictOf, expected, rows);
  }

  /** The loop over the rows. */
  method NormalizeRows(text: Json -> string, hash: Digest, dictOf: AsDict, expected: map<Json, Json>, rows: seq<Json>)
    returns (r: Result<seq<Json>, RowError>)
    ensures r.Ok? <==> forall raw <- rows :: RowMatches(text, hash, dictOf, expected, raw)
    ensures r.Ok? ==> AllRead(dictOf, rows, r.value)
  {
    var normalized: seq<Json> := [];
    for i := 0 to |rows|
      invariant forall raw <- rows[..i] :: RowMatches(text, hash, dictOf, expected, raw)
      invariant AllRead(dictOf, rows[..i], normalized)
    {
      assert rows[..i + 1] == rows[..i] + [rows[i]];
      var row := CheckRow(text, hash, dictOf, expected, rows[i]);
      if row.Err? {
        assert rows[i] in rows;
        return Err(row.error);
      }
      AllReadStep(dictOf, rows[..i], normalized, rows[i], row.value);
      normalized := normalized + [row.value];
    }
    assert rows[..|rows|] == rows;
    return Ok(normalized);
  }

  /** `len(ids) != len(set(ids))`. */
  method HasRepetition(ids: seq<string>) returns (repeated: bool)
    ensures repeated <==> !Distinct(ids)
  {
    var seen: set<string> := {};
    for i := 0 to |ids|
      invariant Distinct(ids[..i])
      invariant forall id :: id in seen <==> id in ids[..i]
    {
      if ids[i] in seen {
        var k :| 0 <= k < i && ids[..i][k] == ids[i];
        assert ids[k] == ids[i];
        return true;
      }
      seen := seen + {ids[i]};
      assert ids[..i + 1] == ids[..i] + [ids[i]];
    }
    assert ids[..|ids|] == ids;
    return false;
  }
}
