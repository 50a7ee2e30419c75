/**
 The holdout protocol of bench/gate1_holdout.py from end to end: a threshold is locked on the calibration
 split of a manifest and verified on the holdout split.
 */
module Holdout {
  import opened Common
  import opened JsonValues
  import opened HoldoutManifest
  import opened HoldoutRows
  import ThresholdLock

  // ---------------------------------------------------------------- one row per case

  function RowId(text: Json -> string, dictOf: AsDict, raw: Json): string {
    var fields := Fields(dictOf, raw);
    if fields.Some? then Text(text, Obj(fields.value), "case_id") else ""
  }

  function RowIds(text: Json -> string, dictOf: AsDict, rows: seq<Json>): (r: seq<string>)
    ensures |r| == |rows| && forall i :: 0 <= i < |r| ==> r[i] == RowId(text, dictOf, rows[i])
  {
    seq(|rows|, i requires 0 <= i < |rows| => RowId(text, dictOf, rows[i]))
  }

  function SplitIds(text: Json -> string, cases: seq<Json>, split: string): set<string> {
    set c <- cases | Raw(c, "split") == Str(split) :: Id(text, c)
  }

  /** The rows are in bijection with the cases of the split. */
  predicate OneRowPerCase(text: Json -> string, dictOf: AsDict, cases: seq<Json>, split: string, rows: seq<Json>) {
    var ids := RowIds(text, dictOf, rows);
    Distinct(ids) && (set id <- ids) == SplitIds(text, cases, split)
  }

  lemma {:induction false} ExpectedFacts(cases: seq<Json>, split: string)
    ensures forall c <- cases :: Raw(c, "split") == Str(split) ==> Raw(c, "case_id") in Expected(cases, split)
    ensures forall id <- Expected(cases, split) :: CaseOf(cases, split, id, Expected(cases, split)[id])
  {
    if cases == [] {
    } else {
      var n := |cases| - 1;
      ExpectedFacts(cases[..n], split);
      assert cases == cases[..n] + [cases[n]];
      forall id | id in Expected(cases, split) ensures CaseOf(cases, split, id, Expected(cases, split)[id]) {
        if id in Expected(cases[..n], split) {
          assert CaseOf(cases[..n], split, id, Expected(cases[..n], split)[id]);
        }
      }
    }
  }

  predicate CaseOf(cases: seq<Json>, split: string, id: Json, c: Json) {
    c in cases && Raw(c, "split") == Str(split) && Raw(c, "case_id") == id
  }

  lemma {:induction false} ObjectIdsAreRows(text: Json -> string, rows: seq<Json>, id: string)
    ensures id in ObjectIds(text, rows) <==> exists row <- rows :: row.Obj? && Text(text, row, "case_id") == id
  {
    if rows == [] {
    } else {
      var n := |rows| - 1;
      assert rows == rows[..n] + [rows[n]];
      ObjectIdsAreRows(text, rows[..n], id);
    }
  }

  lemma {:induction false} AllObjectIds(text: Json -> string, dictOf: AsDict, rows: seq<Json>)
    requires forall row <- rows :: row.Obj?
    ensures ObjectIds(text, rows) == RowIds(text, dictOf, rows)
  {
    if rows == [] {
    } else {
      var n := |rows| - 1;
      assert rows[n].Obj?;
      AllObjectIds(text, dictOf, rows[..n]) by {
        assert forall row <- rows[..n] :: row in rows;
      }
      assert RowIds(text, dictOf, rows) == RowIds(text, dictOf, rows[..n]) + [RowId(text, dictOf, rows[n])];
    }
  }

  /** Identifiers of the split are strings, and the accepted rows name each of them. */
  lemma AcceptedIds(text: Json -> string, hash: Digest, dictOf: AsDict, cases: seq<Json>, split: string,
                    rows: seq<Json>)
    requires RowsAccepted(text, hash, dictOf, cases, split, rows)
    ensures (set id <- ObjectIds(text, rows)) == SplitIds(text, cases, split)
    ensures forall c <- cases :: Raw(c, "split") == Str(split) ==> Raw(c, "case_id") == Str(Id(text, c))
  {
    var expected, ids := Expected(cases, split), ObjectIds(text, rows);
    ExpectedFacts(cases, split);
    forall c | c in cases && Raw(c, "split") == Str(split)
      ensures Raw(c, "case_id") == Str(Id(text, c)) && Id(text, c) in ids
    {
      assert Raw(c, "case_id") in StrKeys(ids);
    }
    forall id | id in ids ensures id in SplitIds(text, cases, split) {
      assert Str(id) in expected.Keys;
      assert CaseOf(cases, split, Str(id), expected[Str(id)]);
    }
  }

  /** Accepted rows are in bijection with the cases of their split exactly if every row is an object. */
  lemma AcceptedRowsMatchCasesOneToOne(text: Json -> string, hash: Digest, dictOf: AsDict, cases: seq<Json>,
                                       split: string, rows: seq<Json>)
    requires RowsAccepted(text, hash, dictOf, cases, split, rows)
    ensures OneRowPerCase(text, dictOf, cases, split, rows) <==> forall row <- rows :: row.Obj?
  {
    var ids := RowIds(text, dictOf, rows);
    AcceptedIds(text, hash, dictOf, cases, split, rows);
    if forall row <- rows :: row.Obj? {
      AllObjectIds(text, dictOf, rows);
    } else {
      var i :| 0 <= i < |rows| && !rows[i].Obj?;
      assert RowMatches(text, hash, dictOf, Expected(cases, split), rows[i]);
      assert Str(ids[i]) in StrKeys(ObjectIds(text, rows));
      ObjectIdsAreRows(text, rows, ids[i]);
      var row :| row in rows && row.Obj? && Text(text, row, "case_id") == ids[i];
      var j :| 0 <= j < |rows| && rows[j] == row;
      assert ids[j] == ids[i] && i != j;
    }
  }

  /** A row repeated as a list of pairs is accepted, so acceptance alone is no bijection. */
  lemma PairListRepeatsARow(text: Json -> string, hash: Digest, dictOf: AsDict, cases: seq<Json>, split: string,
                            rows: seq<Json>, row: Json, pairs: Json)
    requires RowsAccepted(text, hash, dictOf, cases, split, rows)
    requires row in rows && row.Obj? && !pairs.Obj? && dictOf(pairs) == Some(row.fields)
    ensures RowsAccepted(text, hash, dictOf, cases, split, rows + [pairs])
    ensures !OneRowPerCase(text, dictOf, cases, split, rows + [pairs])
  {
    assert (rows + [pairs])[..|rows|] == rows;
    assert ObjectIds(text, rows + [pairs]) == ObjectIds(text, rows);
    assert Fields(dictOf, pairs) == Fields(dictOf, row);
    assert RowMatches(text, hash, dictOf, Expected(cases, split), row);
    AcceptedRowsMatchCasesOneToOne(text, hash, dictOf, cases, split, rows + [pairs]);
    assert pairs in rows + [pairs];
  }

  // ---------------------------------------------------------------- nothing is shared

  function RowFingerprint(text: Json -> string, dictOf: AsDict, raw: Json): string {
    var fields := Fields(dictOf, raw);
    if fields.Some? then Prefixed(Text(text, Obj(fields.value), "sample_fingerprint")) else ""
  }

  predicate NoSharedFingerprint(text: Json -> string, dictOf: AsDict, calibration: seq<Json>, holdout: seq<Json>) {
    forall a <- calibration, b <- holdout :: RowFingerprint(text, dictOf, a) != RowFingerprint(text, dictOf, b)
  }

  lemma SplitsShareNoFingerprint(text: Json -> string, isSha: string -> bool, hash: Digest, dictOf: AsDict,
                                 cases: seq<Json>, calibration: seq<Json>, holdout: seq<Json>)
    requires CasesValid(text, isSha, cases)
    requires RowsAccepted(text, hash, dictOf, cases, CALIBRATION, calibration)
    requires RowsAccepted(text, hash, dictOf, cases, HOLDOUT, holdout)
    ensures NoSharedFingerprint(text, dictOf, calibration, holdout)
  {
    forall a, b | a in calibration && b in holdout
      ensures RowFingerprint(text, dictOf, a) != RowFingerprint(text, dictOf, b)
    {
      var i := CaseOfRow(text, hash, dictOf, cases, CALIBRATION, a);
      var j := CaseOfRow(text, hash, dictOf, cases, HOLDOUT, b);
      OtherSplitOtherPayload(text, isSha, cases, i, j);
    }
  }

  lemma OtherSplitOtherPayload(text: Json -> string, isSha: string -> bool, cases: seq<Json>, i: nat, j: nat)
    requires CasesValid(text, isSha, cases) && i < |cases| && j < |cases|
    requires Raw(cases[i], "split") == Str(CALIBRATION) && Raw(cases[j], "split") == Str(HOLDOUT)
    ensures Text(text, cases[i], PAYLOAD) != Text(text, cases[j], PAYLOAD)
  {
    assert Split(text, cases[i]) == CALIBRATION && Split(text, cases[j]) == HOLDOUT;
  }

  lemma CaseOfRow(text: Json -> string, hash: Digest, dictOf: AsDict, cases: seq<Json>, split: string, raw: Json)
    returns (i: nat)
    requires RowMatches(text, hash, dictOf, Expected(cases, split), raw)
    ensures i < |cases| && Raw(cases[i], "split") == Str(split)
    ensures Text(text, cases[i], PAYLOAD) == RowFingerprint(text, dictOf, raw)
  {
    var id, expected := Str(RowId(text, dictOf, raw)), Expected(cases, split);
    ExpectedFacts(cases, split);
    assert CaseOf(cases, split, id, expected[id]);
    i :| 0 <= i < |cases| && cases[i] == expected[id];
  }

  // ---------------------------------------------------------------- the formal profile

  type Labels = Json -> seq<real>

  function RoleRow(text: Json -> string, dictOf: AsDict, labels: Labels, expected: map<Json, Json>,
                   raw: Json): ThresholdLock.Row {
    var id := Str(RowId(text, dictOf, raw));
    var role := if id in expected then Raw(expected[id], "role") else Null;
    var fields := Fields(dictOf, raw);
    ThresholdLock.Row(if fields.Some? then labels(Obj(fields.value)) else [],
                      if role == Str(ATTACK) then ThresholdLock.Attack else ThresholdLock.NegativeControl)
  }

  /** The rows as the operating points see them: detector scores, and the role of the case in the cohort. */
  function RoleRows(text: Json -> string, dictOf: AsDict, labels: Labels, expected: map<Json, Json>, rows: seq<Json>)
    : seq<ThresholdLock.Row>
  {
    if rows == [] then []
    else
      RoleRows(text, dictOf, labels, expected, rows[..|rows| - 1])
      + [RoleRow(text, dictOf, labels, expected, rows[|rows| - 1])]
  }

  /** Only a string is shown as the name of a split or of a role. */
  ghost predicate ShowsNoName(text: Json -> string) {
    forall j :: text(j) !in {CALIBRATION, HOLDOUT, ATTACK, NEGATIVE}
  }

  function RoleIds(text: Json -> string, cases: seq<Json>, split: string, role: string): set<string> {
    set c <- cases | InRole(text, c, split, role) :: Id(text, c)
  }

  lemma {:induction false} CountIsNumberOfIds(text: Json -> string, cases: seq<Json>, split: string, role: string)
    requires IdsDistinct(text, cases)
    ensures CountRole(text, cases, split, role) == |RoleIds(text, cases, split, role)|
  {
    if cases == [] {
    } else {
      var n := |cases| - 1;
      var c := cases[n];
      assert cases == cases[..n] + [c];
      CountIsNumberOfIds(text, cases[..n], split, role);
      var before := RoleIds(text, cases[..n], split, role);
      assert RoleIds(text, cases, split, role) == before + if InRole(text, c, split, role) then {Id(text, c)} else {};
      assert Id(text, c) !in before;
    }
  }

  function NegativeIds(text: Json -> string, dictOf: AsDict, labels: Labels, expected: map<Json, Json>,
                       rows: seq<Json>): set<string> {
    set raw <- rows | RoleRow(text, dictOf, labels, expected, raw).role == ThresholdLock.NegativeControl
      :: RowId(text, dictOf, raw)
  }

  lemma {:induction false} IdsAtMostRows(text: Json -> string, dictOf: AsDict, labels: Labels,
                                         expected: map<Json, Json>, rows: seq<Json>)
    ensures |NegativeIds(text, dictOf, labels, expected, rows)|
         <= |ThresholdLock.ScoresOf(RoleRows(text, dictOf, labels, expected, rows), ThresholdLock.NegativeControl)|
  {
    if rows == [] {
    } else {
      var n := |rows| - 1;
      var raw := rows[n];
      NegativeIdsStep(text, dictOf, labels, expected, rows[..n], raw);
      assert rows == rows[..n] + [raw];
      IdsAtMostRows(text, dictOf, labels, expected, rows[..n]);
      var all := RoleRows(text, dictOf, labels, expected, rows);
      RoleRowsLength(text, dictOf, labels, expected, rows[..n]);
      assert all[..n] == RoleRows(text, dictOf, labels, expected, rows[..n]);
    }
  }

  lemma NegativeIdsStep(text: Json -> string, dictOf: AsDict, labels: Labels, expected: map<Json, Json>,
                        rows: seq<Json>, raw: Json)
    ensures |NegativeIds(text, dictOf, labels, expected, rows + [raw])|
         <= |NegativeIds(text, dictOf, labels, expected, rows)|
            + if RoleRow(text, dictOf, labels, expected, raw).role == ThresholdLock.NegativeControl then 1 else 0
  {
    var negative := RoleRow(text, dictOf, labels, expected, raw).role == ThresholdLock.NegativeControl;
    assert NegativeIds(text, dictOf, labels, expected, rows + [raw])
        == NegativeIds(text, dictOf, labels, expected, rows) + if negative then {RowId(text, dictOf, raw)} else {};
  }

  lemma {:induction false} RoleRowsLength(text: Json -> string, dictOf: AsDict, labels: Labels,
                                          expected: map<Json, Json>, rows: seq<Json>)
    ensures |RoleRows(text, dictOf, labels, expected, rows)| == |rows|
  {
    if rows == [] {
    } else {
      RoleRowsLength(text, dictOf, labels, expected, rows[..|rows| - 1]);
    }
  }

  /** Every negative control of the split is evaluated. */
  lemma NegativesAreEvaluated(text: Json -> string, isSha: string -> bool, hash: Digest, dictOf: AsDict, labels: Labels,
                              cases: seq<Json>, split: string, rows: seq<Json>)
    requires ShowsNoName(text) && CasesValid(text, isSha, cases) && split in {CALIBRATION, HOLDOUT}
    requires RowsAccepted(text, hash, dictOf, cases, split, rows)
    ensures CountRole(text, cases, split, NEGATIVE)
         <= |ThresholdLock.ScoresOf(RoleRows(text, dictOf, labels, Expected(cases, split), rows),
                                    ThresholdLock.NegativeControl)|
  {
    var expected := Expected(cases, split);
    AcceptedIds(text, hash, dictOf, cases, split, rows);
    ExpectedFacts(cases, split);
    forall c | c in cases && InRole(text, c, split, NEGATIVE)
      ensures Id(text, c) in NegativeIds(text, dictOf, labels, expected, rows)
    {
      var id := Id(text, c);
      assert Raw(c, "split") == Str(split) && Raw(c, "role") == Str(NEGATIVE);
      assert CaseOf(cases, split, Str(id), expected[Str(id)]);
      SameIdSameCase(text, cases, c, expected[Str(id)]);
      assert id in SplitIds(text, cases, split);
      ObjectIdsAreRows(text, rows, id);
      var row :| row in rows && row.Obj? && Text(text, row, "case_id") == id;
      assert RowId(text, dictOf, row) == id;
    }
    var negatives := RoleIds(text, cases, split, NEGATIVE);
    CountIsNumberOfIds(text, cases, split, NEGATIVE);
    IdsAtMostRows(text, dictOf, labels, expected, rows);
    SubsetIsSmaller(negatives, NegativeIds(text, dictOf, labels, expected, rows));
  }

  /** Every row is scored with its own labels, in the role of the case of the split that it names. */
  lemma RowsScoreTheirCases(text: Json -> string, isSha: string -> bool, hash: Digest, dictOf: AsDict, labels: Labels,
                            cases: seq<Json>, split: string, rows: seq<Json>, i: nat)
    requires ShowsNoName(text) && CasesValid(text, isSha, cases) && split in {CALIBRATION, HOLDOUT}
    requires RowsAccepted(text, hash, dictOf, cases, split, rows) && i < |rows|
    ensures var scored := RoleRows(text, dictOf, labels, Expected(cases, split), rows);
      && |scored| == |rows| && Fields(dictOf, rows[i]).Some?
      && scored[i].labels == labels(Obj(Fields(dictOf, rows[i]).value))
      && exists c <- cases ::
           && Text(text, c, "split") == split && Text(text, c, "case_id") == RowId(text, dictOf, rows[i])
           && (scored[i].role == ThresholdLock.Attack <==> Text(text, c, "role") == "attack")
           && (scored[i].role == ThresholdLock.NegativeControl <==> Text(text, c, "role") == "negative_control")
  {
    var expected := Expected(cases, split);
    RoleRowsAt(text, dictOf, labels, expected, rows, i);
    assert RowMatches(text, hash, dictOf, expected, rows[i]);
    ExpectedFacts(cases, split);
    var id := Str(RowId(text, dictOf, rows[i]));
    var c := expected[id];
    assert CaseOf(cases, split, id, c);
    assert FieldsOk(text, isSha, c);
    assert RoleOf(text, c) in {ATTACK, NEGATIVE};
    assert Raw(c, "role").Str?;
  }

  lemma {:induction false} RoleRowsAt(text: Json -> string, dictOf: AsDict, labels: Labels, expected: map<Json, Json>,
                                      rows: seq<Json>, i: nat)
    requires i < |rows|
    ensures var scored := RoleRows(text, dictOf, labels, expected, rows);
      |scored| == |rows| && scored[i] == RoleRow(text, dictOf, labels, expected, rows[i])
  {
    var n := |rows| - 1;
    RoleRowsLength(text, dictOf, labels, expected, rows[..n]);
    if i < n {
      RoleRowsAt(text, dictOf, labels, expected, rows[..n], i);
    }
  }

  lemma SameIdSameCase(text: Json -> string, cases: seq<Json>, b: Json, c: Json)
    requires IdsDistinct(text, cases) && b in cases && c in cases && Id(text, b) == Id(text, c)
    ensures b == c
  {
    var i :| 0 <= i < |cases| && cases[i] == b;
    var j :| 0 <= j < |cases| && cases[j] == c;
  }

  lemma {:induction false} SubsetIsSmaller(a: set<string>, b: set<string>)
    requires a <= b
    ensures |a| <= |b|
    decreases |a|
  {
    if a == {} {
    } else {
      var x :| x in a;
      SubsetIsSmaller(a - {x}, b - {x});
    }
  }

  /** With the minimum of the formal profile, an accepted calibration run always yields a lock at 1%. */
  lemma FormalCalibrationAlwaysLocks(text: Json -> string, isSha: string -> bool, hash: Digest, dictOf: AsDict,
                                     labels: Labels, cases: seq<Json>, m: Requirements, rows: seq<Json>,
                                     config: ThresholdLock.Config)
    requires ShowsNoName(text) && ManifestCasesOk(text, isSha, cases, m) && m.negatives >= 381
    requires RowsAccepted(text, hash, dictOf, cases, CALIBRATION, rows)
    requires ThresholdLock.RoundsToSix(config.round) && ThresholdLock.UsesWilson(config)
    requires config.confidence && config.maxFpr == 0.01
    ensures ThresholdLock.CreateLock(config, RoleRows(text, dictOf, labels, Expected(cases, CALIBRATION), rows)).Ok?
  {
    NegativesAreEvaluated(text, isSha, hash, dictOf, labels, cases, CALIBRATION, rows);
    ThresholdLock.OnePercentNeeds381Negatives(config,
                                              RoleRows(text, dictOf, labels, Expected(cases, CALIBRATION), rows));
  }

  // ---------------------------------------------------------------- the protocol

  const COMMITMENT := "commitment_sha256"

  function Commitment(hash: Digest, document: map<string, Json>): string {
    hash(Obj(document - {COMMITMENT}))
  }

  function CasesOf(manifest: map<string, Json>): seq<Json> {
    var cases := Raw(Obj(manifest), "cases");
    if cases.Arr? then cases.items else []
  }

  /** `otherwise` stands for the checks of the fields around the cases. */
  predicate ManifestValid(text: Json -> string, isSha: string -> bool, hash: Digest,
                          otherwise: map<string, Json> -> bool, manifest: map<string, Json>, m: Requirements)
  {
    && otherwise(manifest)
    && isSha(Text(text, Obj(manifest), COMMITMENT))
      && Text(text, Obj(manifest), COMMITMENT) == Commitment(hash, manifest)
    && Raw(Obj(manifest), "cases").Arr? && ManifestCasesOk(text, isSha, CasesOf(manifest), m)
  }

  datatype Lock = Lock(manifestCommitment: Json, threshold: real, config: ThresholdLock.Config)

  /** `create_threshold_lock`; an invalid manifest or a rejected evaluation raises. */
  function Create(text: Json -> string, isSha: string -> bool, hash: Digest, otherwise: map<string, Json> -> bool,
                  dictOf: AsDict, labels: Labels, config: ThresholdLock.Config, m: Requirements,
                  manifest: map<string, Json>, rows: seq<Json>)
    : Option<Lock>
  {
    var cases := CasesOf(manifest);
    if !ManifestValid(text, isSha, hash, otherwise, manifest, m)
      || !RowsAccepted(text, hash, dictOf, cases, CALIBRATION, rows) then None
    else
      var point := ThresholdLock.CreateLock(config, RoleRows(text, dictOf, labels, Expected(cases, CALIBRATION), rows));
      if point.Err? then None else Some(Lock(Raw(Obj(manifest), COMMITMENT), point.value.threshold, config))
  }

  /** `verify_holdout` passes; `bound` stands for the comparison of the configuration bindings. */
  predicate Passes(text: Json -> string, isSha: string -> bool, hash: Digest, otherwise: map<string, Json> -> bool,
                   dictOf: AsDict, labels: Labels, config: ThresholdLock.Config, minRecall: real, m: Requirements,
                   manifest: map<string, Json>, lock: Lock, bound: bool, rows: seq<Json>)
  {
    var cases := CasesOf(manifest);
    && ManifestValid(text, isSha, hash, otherwise, manifest, m) && bound
    && lock.manifestCommitment == Raw(Obj(manifest), COMMITMENT)
    && lock.config.maxFpr == config.maxFpr && lock.config.confidence == config.confidence
    && RowsAccepted(text, hash, dictOf, cases, HOLDOUT, rows)
    && var point := ThresholdLock.OperatingPoint(config.round,
                                                 RoleRows(text, dictOf, labels, Expected(cases, HOLDOUT), rows),
                                                 lock.threshold);
       point.recall >= minRecall && ThresholdLock.Feasible(config, point)
  }

  /** The commitment of a document does not depend on the field that carries it, and depends on all others. */
  lemma CommitmentCoversTheRest(hash: Digest, a: map<string, Json>, b: map<string, Json>, own: Json)
    requires Injective(hash)
    ensures Commitment(hash, a["commitment_sha256" := own]) == Commitment(hash, a)
    ensures Commitment(hash, a) == Commitment(hash, b) <==> a - {"commitment_sha256"} == b - {"commitment_sha256"}
  {
    assert a["commitment_sha256" := own] - {"commitment_sha256"} == a - {"commitment_sha256"};
  }

  /** A manifest is valid exactly if it holds a list of acceptable cases and commits to all its other fields. */
  lemma ManifestExactly(text: Json -> string, isSha: string -> bool, hash: Digest,
                        otherwise: map<string, Json> -> bool, manifest: map<string, Json>, m: Requirements)
    requires !isSha("")
    ensures ManifestValid(text, isSha, hash, otherwise, manifest, m) <==>
      && otherwise(manifest)
      && (exists own <- manifest.Values :: manifest["commitment_sha256" := own] == manifest
            && Shown(text, own) == hash(Obj(manifest - {"commitment_sha256"})) && isSha(Shown(text, own)))
      && (exists cases :: manifest["cases" := Arr(cases)] == manifest && ManifestCasesOk(text, isSha, cases, m))
  {
    if ManifestValid(text, isSha, hash, otherwise, manifest, m) {
      assert manifest["commitment_sha256" := manifest["commitment_sha256"]] == manifest;
      assert manifest["cases" := Arr(CasesOf(manifest))] == manifest;
    }
  }

  /** In the formal profile a lock is created from every accepted calibration run of a valid manifest, bound to it. */
  lemma FormalRunCreatesALock(text: Json -> string, isSha: string -> bool, hash: Digest,
                              otherwise: map<string, Json> -> bool, dictOf: AsDict, labels: Labels,
                              config: ThresholdLock.Config, m: Requirements, manifest: map<string, Json>,
                              rows: seq<Json>)
    requires ShowsNoName(text) && m.negatives >= 381 && config.confidence && config.maxFpr == 0.01
    requires ThresholdLock.RoundsToSix(config.round) && ThresholdLock.UsesWilson(config)
    requires otherwise(manifest) && isSha(Text(text, Obj(manifest), "commitment_sha256"))
    requires Text(text, Obj(manifest), "commitment_sha256") == hash(Obj(manifest - {"commitment_sha256"}))
    requires "cases" in manifest && manifest["cases"].Arr? && ManifestCasesOk(text, isSha, manifest["cases"].items, m)
    requires RowsAccepted(text, hash, dictOf, manifest["cases"].items, CALIBRATION, rows)
    ensures var lock := Create(text, isSha, hash, otherwise, dictOf, labels, config, m, manifest, rows);
      && lock.Some? && lock.value.manifestCommitment == Raw(Obj(manifest), "commitment_sha256")
      && lock.value.config == config
      && ThresholdLock.FeasibleAt(
           config, RoleRows(text, dictOf, labels, Expected(manifest["cases"].items, CALIBRATION), rows),
           lock.value.threshold)
  {
    var cases := manifest["cases"].items;
    FormalCalibrationAlwaysLocks(text, isSha, hash, dictOf, labels, cases, m, rows, config);
    ThresholdLock.LockIsOptimal(config, RoleRows(text, dictOf, labels, Expected(cases, CALIBRATION), rows));
  }

  /**
   A holdout run passes exactly if the manifest is valid, all bindings are the locked ones, the rows are accepted,
   enough attacks are found at the locked threshold, and few enough negatives.
   */
  lemma PassesExactly(text: Json -> string, isSha: string -> bool, hash: Digest, otherwise: map<string, Json> -> bool,
                      dictOf: AsDict, labels: Labels, config: ThresholdLock.Config, minRecall: real, m: Requirements,
                      manifest: map<string, Json>, lock: Lock, bound: bool, rows: seq<Json>)
    requires config.round(0.0) == 0.0
    ensures var scored := RoleRows(text, dictOf, labels, Expected(CasesOf(manifest), HOLDOUT), rows);
      Passes(text, isSha, hash, otherwise, dictOf, labels, config, minRecall, m, manifest, lock, bound, rows) <==>
        && ManifestValid(text, isSha, hash, otherwise, manifest, m) && bound
        && Raw(Obj(manifest), "commitment_sha256") == lock.manifestCommitment
        && config.maxFpr == lock.config.maxFpr && config.confidence == lock.config.confidence
        && RowsAccepted(text, hash, dictOf, CasesOf(manifest), "holdout", rows)
        && Recall(config, scored, lock.threshold) >= minRecall && FalsePositivesFit(config, scored, lock.threshold)
  {
    PointIsRecallAndFit(config, RoleRows(text, dictOf, labels, Expected(CasesOf(manifest), HOLDOUT), rows),
                        lock.threshold);
  }

  lemma PointIsRecallAndFit(config: ThresholdLock.Config, scored: seq<ThresholdLock.Row>, t: real)
    requires config.round(0.0) == 0.0
    ensures ThresholdLock.OperatingPoint(config.round, scored, t).recall == Recall(config, scored, t)
    ensures ThresholdLock.FeasibleAt(config, scored, t) <==> FalsePositivesFit(config, scored, t)
  {
    ThresholdLock.PointIsShares(config.round, scored, t);
  }

  /** The rounded share of attack rows that score at least the threshold. */
  function Recall(config: ThresholdLock.Config, scored: seq<ThresholdLock.Row>, t: real): real {
    var attacks := |ThresholdLock.RowsOf(scored, ThresholdLock.Attack)|;
    if attacks == 0 then 0.0
    else config.round(|ThresholdLock.RowsFrom(scored, ThresholdLock.Attack, t)| as real / attacks as real)
  }

  predicate FalsePositivesFit(config: ThresholdLock.Config, scored: seq<ThresholdLock.Row>, t: real) {
    var hits := |ThresholdLock.RowsFrom(scored, ThresholdLock.NegativeControl, t)|;
    var negatives := |ThresholdLock.RowsOf(scored, ThresholdLock.NegativeControl)|;
    && (if negatives == 0 then 0.0 else config.round(hits as real / negatives as real)) <= config.maxFpr
    && (config.confidence ==> config.upper(hits, negatives) <= config.maxFpr)
  }

  /**
   The manifest that a lock was created against and the one a holdout run passes against have the same
   cases; no calibration row shares a payload fingerprint with a holdout row; and if all rows are objects,
   each evaluation is in bijection with its split.
   */
  lemma LockedThenPassed(text: Json -> string, isSha: string -> bool, hash: Digest,
                         otherwise: map<string, Json> -> bool, dictOf: AsDict, labels: Labels,
                         created: ThresholdLock.Config, config: ThresholdLock.Config, minRecall: real, m: Requirements,
                         n: Requirements, bound: bool, first: map<string, Json>, calibration: seq<Json>,
                         second: map<string, Json>, holdout: seq<Json>)
    requires Injective(hash) && !isSha("")
    requires Create(text, isSha, hash, otherwise, dictOf, labels, created, m, first, calibration).Some?
    requires
      var lock := Create(text, isSha, hash, otherwise, dictOf, labels, created, m, first, calibration).value;
      Passes(text, isSha, hash, otherwise, dictOf, labels, config, minRecall, n, second, lock, bound, holdout)
    ensures CasesOf(first) == CasesOf(second)
    ensures NoSharedFingerprint(text, dictOf, calibration, holdout)
    ensures (forall row <- calibration :: row.Obj?)
      <==> OneRowPerCase(text, dictOf, CasesOf(second), CALIBRATION, calibration)
    ensures (forall row <- holdout :: row.Obj?) <==> OneRowPerCase(text, dictOf, CasesOf(second), HOLDOUT, holdout)
  {
    SameCommitmentSameCases(text, hash, first, second);
    var cases := CasesOf(second);
    SplitsShareNoFingerprint(text, isSha, hash, dictOf, cases, calibration, holdout);
    AcceptedRowsMatchCasesOneToOne(text, hash, dictOf, cases, CALIBRATION, calibration);
    AcceptedRowsMatchCasesOneToOne(text, hash, dictOf, cases, HOLDOUT, holdout);
  }

  lemma SameCommitmentSameCases(text: Json -> string, hash: Digest, first: map<string, Json>, second: map<string, Json>)
    requires Injective(hash)
    requires Text(text, Obj(first), COMMITMENT) == Commitment(hash, first)
    requires Text(text, Obj(second), COMMITMENT) == Commitment(hash, second)
    requires Raw(Obj(first), COMMITMENT) == Raw(Obj(second), COMMITMENT)
    requires COMMITMENT in first && COMMITMENT in second
    ensures CasesOf(first) == CasesOf(second)
  {
    var a, b := first - {COMMITMENT}, second - {COMMITMENT};
    assert hash(Obj(a)) == hash(Obj(b));
    assert a == b;
    assert "cases" in first <==> "cases" in a;
    assert "cases" in second <==> "cases" in b;
    assert "cases" in first ==> first["cases"] == a["cases"];
    assert "cases" in second ==> second["cases"] == b["cases"];
  }
}
