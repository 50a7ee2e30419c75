/**
 Where manifests and evaluation rows come from: `_manifest_case` of bench/gate1_holdout.py commits to a
 case of a suite, scripts/evaluate_gate1.py evaluates it. `strip` is Python's, `isSha` and `hash` as before.
 */
module HoldoutBuild {
  import opened Common
  import opened JsonValues
  import opened HoldoutManifest
  import opened HoldoutRows

  datatype BuildError = PayloadNotObject | VariantInPayload

  /** The role of a case; a case without one is not part of the manifest. */
  function CaseRole(text: Json -> string, suiteCase: Json): Option<string> {
    var kind := KindOf(text, suiteCase);
    if kind == "attack_case" && Text(text, suiteCase, "attack_type") in ATTACK_TYPES then Some(ATTACK)
    else if kind == "benign_control" && Text(text, suiteCase, "expected_decision") == "allow" then Some(NEGATIVE)
    else None
  }

  /** The semantic group and where it comes from. */
  function SemanticGroup(text: Json -> string, strip: string -> string, isSha: string -> bool, hash: Digest,
                         suiteCase: Json, payloadDigest: string): (string, string)
  {
    var explicit := strip(Text(text, suiteCase, GROUP));
    if explicit == "" then (payloadDigest, "derived_exact_payload")
    else if isSha(explicit) then (explicit, "explicit")
    else (hash(Obj(map[GROUP := Str(explicit)])), "explicit")
  }

  function ManifestCase(text: Json -> string, strip: string -> string, isSha: string -> bool, hash: Digest,
                        suiteCase: Json, split: string)
    : Result<Option<Json>, BuildError>
  {
    var role, payload := CaseRole(text, suiteCase), Raw(suiteCase, "input_payload");
    if role.None? then Ok(None)
    else if !payload.Obj? then Err(PayloadNotObject)
    else if ContainsKey(payload, VARIANT) then Err(VariantInPayload)
    else
      var group := SemanticGroup(text, strip, isSha, hash, suiteCase, hash(payload));
      Ok(Some(Obj(map[
        "case_id" := Str(Text(text, suiteCase, "case_id")), "split" := Str(split), "role" := Str(role.value),
        "attack_type" := Str(if role.value == ATTACK then Text(text, suiteCase, "attack_type") else ""),
        GROUP := Str(group.0), "semantic_group_source" := Str(group.1),
        PAYLOAD := Str(hash(payload)), ORACLE := Str(OracleDigest(text, hash, suiteCase))])))
  }

  /** Whatever is built has well-formed fields, unless the case has no identifier. */
  lemma BuiltCaseIsWellFormed(text: Json -> string, strip: string -> string, isSha: string -> bool, hash: Digest,
                              suiteCase: Json, split: string, item: Json)
    requires (forall j :: isSha(hash(j))) && split in {CALIBRATION, HOLDOUT}
    requires ManifestCase(text, strip, isSha, hash, suiteCase, split) == Ok(Some(item))
    ensures FieldsOk(text, isSha, item) <==> Text(text, suiteCase, "case_id") != ""
  {
    var payload := Raw(suiteCase, "input_payload");
    var group := SemanticGroup(text, strip, isSha, hash, suiteCase, hash(payload));
    assert isSha(hash(payload)) && isSha(hash(OracleOf(text, suiteCase))) && isSha(group.0);
    assert Id(text, item) == Text(text, suiteCase, "case_id") && Split(text, item) == split;
    assert Text(text, item, PAYLOAD) == hash(payload) && Text(text, item, GROUP) == group.0;
    assert Text(text, item, ORACLE) == OracleDigest(text, hash, suiteCase)
      && Text(text, item, "semantic_group_source") == group.1;
  }

  predicate IsAttack(text: Json -> string, m: map<string, Json>) {
    && ("case_kind" in m ==> Shown(text, m["case_kind"]) == "attack_case")
    && ShownOrMissing(text, m, "attack_type") in ATTACK_TYPES
  }

  predicate IsNegative(text: Json -> string, m: map<string, Json>) {
    && "case_kind" in m && Shown(text, m["case_kind"]) == "benign_control"
    && ShownOrMissing(text, m, "expected_decision") == "allow"
  }

  /**
   A case is committed exactly if it is a known attack or an allowed benign control, and has an object without
   variant field as payload. The first kind of failure leaves it out, the others raise.
   */
  lemma BuiltExactly(text: Json -> string, strip: string -> string, isSha: string -> bool, hash: Digest,
                     m: map<string, Json>, split: string)
    ensures var r, payload := ManifestCase(text, strip, isSha, hash, Obj(m), split), Raw(Obj(m), "input_payload");
      if !IsAttack(text, m) && !IsNegative(text, m) then r == Ok(None)
      else if !payload.Obj? then r == Err(PayloadNotObject)
      else if LegacyNormalized(payload) != payload then r == Err(VariantInPayload)
      else r.Ok? && r.value.Some?
  {
    NormalizationRemovesVariant(Raw(Obj(m), "input_payload"));
  }

  /** What is committed for a case. */
  lemma BuiltSays(text: Json -> string, strip: string -> string, isSha: string -> bool, hash: Digest,
                  m: map<string, Json>, split: string, item: Json)
    requires ManifestCase(text, strip, isSha, hash, Obj(m), split) == Ok(Some(item))
    ensures NamesCase(text, m, split, item) && CommitsTo(text, strip, isSha, hash, m, item)
  {
    var payload := Raw(Obj(m), "input_payload");
    var group := SemanticGroup(text, strip, isSha, hash, Obj(m), hash(payload));
    assert Raw(item, PAYLOAD) == Str(hash(payload)) && Raw(item, ORACLE) == Str(OracleDigest(text, hash, Obj(m)));
    assert Raw(item, GROUP) == Str(group.0) && Raw(item, "semantic_group_source") == Str(group.1);
  }

  predicate NamesCase(text: Json -> string, m: map<string, Json>, split: string, item: Json) {
    && Raw(item, "case_id") == Str(ShownOrMissing(text, m, "case_id")) && Raw(item, "split") == Str(split)
    && Raw(item, "role") == Str(if IsAttack(text, m) then "attack" else "negative_control")
    && Raw(item, "attack_type") == Str(if IsAttack(text, m) then ShownOrMissing(text, m, "attack_type") else "")
  }

  /** The digests of an entry; without a declared group the payload is its own group. */
  predicate CommitsTo(text: Json -> string, strip: string -> string, isSha: string -> bool, hash: Digest,
                      m: map<string, Json>, item: Json)
  {
    var payload, declared := Raw(Obj(m), "input_payload"), strip(ShownOrMissing(text, m, "semantic_group_id"));
    && Raw(item, "payload_sha256") == Str(hash(payload))
    && Raw(item, "oracle_sha256") == Str(OracleDigest(text, hash, Obj(m)))
    && (if declared == "" then
          Raw(item, "semantic_group_id") == Raw(item, "payload_sha256")
          && Raw(item, "semantic_group_source") == Str("derived_exact_payload")
        else
          && Raw(item, "semantic_group_source") == Str("explicit")
          && Raw(item, "semantic_group_id")
             == Str(if isSha(declared) then declared else hash(Obj(map["semantic_group_id" := Str(declared)]))))
  }

  /** What evaluation writes for a case, as far as the cohort check reads it; a decision is always a string. */
  function EvaluatedRow(text: Json -> string, hash: Digest, suiteCase: Json): Json {
    Obj(map["case_id" := Str(Text(text, suiteCase, "case_id")),
            "attack_type" := Str(Text(text, suiteCase, "attack_type")),
            "case_kind" := Str(KindOf(text, suiteCase)),
            "expected_decision" := Str(Text(text, suiteCase, "expected_decision")),
            "sample_fingerprint" := Str(SampleFingerprint(hash, Raw(suiteCase, "input_payload")))])
  }

  /**
   A row that was evaluated from a case matches the manifest entry built from another one with the same
   identifier exactly if the two have the same oracle and, up to variant fields, the same payload. In
   particular a case always matches its own entry.
   */
  lemma EvaluatedRowMatchesExactly(text: Json -> string, strip: string -> string, isSha: string -> bool, hash: Digest,
                                   dictOf: AsDict, committed: Json, split: string, item: Json,
                                   expected: map<Json, Json>, evaluated: Json)
    requires PrefixedHex(hash) && Injective(hash)
    requires ManifestCase(text, strip, isSha, hash, committed, split) == Ok(Some(item))
    requires Text(text, evaluated, "case_id") == Text(text, committed, "case_id")
    requires Str(Text(text, committed, "case_id")) in expected
      && expected[Str(Text(text, committed, "case_id"))] == item
    ensures RowMatches(text, hash, dictOf, expected, EvaluatedRow(text, hash, evaluated)) <==>
      && LegacyNormalized(Raw(evaluated, "input_payload")) == Raw(committed, "input_payload")
      && OracleOf(text, evaluated) == OracleOf(text, committed)
    ensures evaluated == committed ==> RowMatches(text, hash, dictOf, expected, EvaluatedRow(text, hash, evaluated))
  {
    var payload := Raw(committed, "input_payload");
    FingerprintsMatchExactly(hash, payload, Raw(evaluated, "input_payload"));
    NormalizationRemovesVariant(payload);
    EvaluatedRowReads(text, hash, dictOf, evaluated);
  }

  lemma EvaluatedRowReads(text: Json -> string, hash: Digest, dictOf: AsDict, suiteCase: Json)
    ensures var row := EvaluatedRow(text, hash, suiteCase);
      && Fields(dictOf, row) == Some(row.fields) && "case_id" in row.fields
      && Text(text, row, "case_id") == Text(text, suiteCase, "case_id")
      && Text(text, row, "sample_fingerprint") == SampleFingerprint(hash, Raw(suiteCase, "input_payload"))
      && OracleOf(text, row) == OracleOf(text, suiteCase)
  {
  }
}
