/**
 `validate_manifest` of bench/gate1_holdout.py: the cases of a manifest divide into a calibration and a
 holdout split that share no payload and no semantic group. `isSha` matches "sha256:" and 64 hex digits.
 */
module HoldoutManifest {
  import opened Common
  import opened JsonValues

  const ATTACK_TYPES: set<string> := {
    "dangerous_command", "forbidden_generation", "indirect_injection", "jailbreak_or_prompt_leak", "pii_leak",
    "secret_exfil"
  }

  const CALIBRATION := "calibration"
  const HOLDOUT := "holdout"
  const ATTACK := "attack"
  const NEGATIVE := "negative_control"
  const PAYLOAD := "payload_sha256"
  const GROUP := "semantic_group_id"
  const ORACLE := "oracle_sha256"
  const DERIVED := "derived_exact_payload"

  datatype Requirements = Requirements(attacks: int, negatives: int, attacksPerType: int, independent: bool)

  datatype Problem =
    | NotObject | IdRequired | DuplicateId | InvalidSplit | InvalidRole | InvalidAttackType | AttackTypeNotEmpty
    | InvalidGroupSource | Malformed(field: string) | CrossesSplits(field: string)
    | TooFew(split: string, role: string) | TooFewOfType(split: string, attackType: string) | DerivedGroups(count: nat)

  // ---------------------------------------------------------------- what a valid manifest is

  function Id(text: Json -> string, c: Json): string {
    Text(text, c, "case_id")
  }

  function Split(text: Json -> string, c: Json): string {
    Text(text, c, "split")
  }

  function RoleOf(text: Json -> string, c: Json): string {
    Text(text, c, "role")
  }

  function AttackType(text: Json -> string, c: Json): string {
    Text(text, c, "attack_type")
  }

  predicate FieldsOk(text: Json -> string, isSha: string -> bool, c: Json) {
    && c.Obj? && Id(text, c) != ""
    && Split(text, c) in {CALIBRATION, HOLDOUT}
    && RoleOf(text, c) in {ATTACK, NEGATIVE}
    && (RoleOf(text, c) == ATTACK ==> AttackType(text, c) in ATTACK_TYPES)
    && (RoleOf(text, c) == NEGATIVE ==> AttackType(text, c) == "")
    && Text(text, c, "semantic_group_source") in {"explicit", "derived_exact_payload"}
    && isSha(Text(text, c, PAYLOAD)) && isSha(Text(text, c, GROUP)) && isSha(Text(text, c, ORACLE))
  }

  predicate IdsDistinct(text: Json -> string, cases: seq<Json>) {
    forall i, j :: 0 <= i < j < |cases| ==> Id(text, cases[i]) != Id(text, cases[j])
  }

  /** No value of the field occurs in both splits. */
  predicate KeepsSplits(text: Json -> string, field: string, cases: seq<Json>) {
    forall i, j :: 0 <= i < j < |cases| && Text(text, cases[i], field) == Text(text, cases[j], field)
      ==> Split(text, cases[i]) == Split(text, cases[j])
  }

  predicate CasesValid(text: Json -> string, isSha: string -> bool, cases: seq<Json>) {
    && (forall c <- cases :: FieldsOk(text, isSha, c))
    && IdsDistinct(text, cases) && KeepsSplits(text, PAYLOAD, cases) && KeepsSplits(text, GROUP, cases)
  }

  predicate InRole(text: Json -> string, c: Json, split: string, role: string) {
    c.Obj? && Split(text, c) == split && RoleOf(text, c) == role
  }

  function CountRole(text: Json -> string, cases: seq<Json>, split: string, role: string): nat {
    if cases == [] then 0
    else
      CountRole(text, cases[..|cases| - 1], split, role)
      + if InRole(text, cases[|cases| - 1], split, role) then 1 else 0
  }

  predicate OfType(text: Json -> string, c: Json, split: string, attackType: string) {
    InRole(text, c, split, ATTACK) && AttackType(text, c) == attackType
  }

  function CountType(text: Json -> string, cases: seq<Json>, split: string, attackType: string): nat {
    if cases == [] then 0
    else
      CountType(text, cases[..|cases| - 1], split, attackType)
      + if OfType(text, cases[|cases| - 1], split, attackType) then 1 else 0
  }

  predicate EnoughIn(text: Json -> string, cases: seq<Json>, m: Requirements, split: string) {
    && CountRole(text, cases, split, ATTACK) >= m.attacks
    && CountRole(text, cases, split, NEGATIVE) >= m.negatives
    && forall t <- ATTACK_TYPES :: CountType(text, cases, split, t) >= m.attacksPerType
  }

  /** The semantic group of the case is not declared but derived from its payload. */
  predicate Derived(text: Json -> string, c: Json) {
    c.Obj? && Text(text, c, "semantic_group_source") == DERIVED
  }

  function CountDerived(text: Json -> string, cases: seq<Json>): nat {
    if cases == [] then 0
    else CountDerived(text, cases[..|cases| - 1]) + if Derived(text, cases[|cases| - 1]) then 1 else 0
  }

  lemma {:induction false} CountDerivedExact(text: Json -> string, cases: seq<Json>)
    ensures CountDerived(text, cases) == 0 <==> forall c <- cases :: !Derived(text, c)
  {
    if cases == [] {
    } else {
      var n := |cases| - 1;
      CountDerivedExact(text, cases[..n]);
      assert cases == cases[..n] + [cases[n]];
    }
  }

  predicate GroupsDeclared(text: Json -> string, cases: seq<Json>) {
    forall c <- cases :: !Derived(text, c)
  }

  predicate ManifestCasesOk(text: Json -> string, isSha: string -> bool, cases: seq<Json>, m: Requirements) {
    && CasesValid(text, isSha, cases) && EnoughIn(text, cases, m, CALIBRATION) && EnoughIn(text, cases, m, HOLDOUT)
    && (m.independent ==> GroupsDeclared(text, cases))
  }

  // What is counted: the places of such cases.

  function AttackPlaces(text: Json -> string, cases: seq<Json>, split: string, types: set<string>): set<nat> {
    set i: nat | i < |cases| && cases[i].Obj? && Text(text, cases[i], "split") == split
              && Text(text, cases[i], "role") == "attack" && Text(text, cases[i], "attack_type") in types
  }

  function NegativePlaces(text: Json -> string, cases: seq<Json>, split: string): set<nat> {
    set i: nat | i < |cases| && cases[i].Obj? && Text(text, cases[i], "split") == split
              && Text(text, cases[i], "role") == "negative_control"
  }

  lemma {:induction false} CountTypePlaces(text: Json -> string, cases: seq<Json>, split: string, attackType: string)
    ensures CountType(text, cases, split, attackType) == |AttackPlaces(text, cases, split, {attackType})|
  {
    if cases == [] {
    } else {
      var n := |cases| - 1;
      CountTypePlaces(text, cases[..n], split, attackType);
      OneMorePlace(AttackPlaces(text, cases[..n], split, {attackType}), AttackPlaces(text, cases, split, {attackType}),
                   n, OfType(text, cases[n], split, attackType));
    }
  }

  lemma {:induction false} CountNegativePlaces(text: Json -> string, cases: seq<Json>, split: string)
    ensures CountRole(text, cases, split, NEGATIVE) == |NegativePlaces(text, cases, split)|
  {
    if cases == [] {
    } else {
      var n := |cases| - 1;
      CountNegativePlaces(text, cases[..n], split);
      OneMorePlace(NegativePlaces(text, cases[..n], split), NegativePlaces(text, cases, split), n,
                   InRole(text, cases[n], split, NEGATIVE));
    }
  }

  lemma {:induction false} CountAttackPlaces(text: Json -> string, cases: seq<Json>, split: string)
    requires forall c <- cases :: RoleOf(text, c) == ATTACK ==> AttackType(text, c) in ATTACK_TYPES
    ensures CountRole(text, cases, split, ATTACK) == |AttackPlaces(text, cases, split, ATTACK_TYPES)|
  {
    if cases == [] {
    } else {
      var n := |cases| - 1;
      assert cases[n] in cases && forall c <- cases[..n] :: c in cases;
      CountAttackPlaces(text, cases[..n], split);
      OneMorePlace(AttackPlaces(text, cases[..n], split, ATTACK_TYPES), AttackPlaces(text, cases, split, ATTACK_TYPES),
                   n, InRole(text, cases[n], split, ATTACK));
    }
  }

  /**
   Which cases a manifest is accepted with: every field is well formed, each role comes with its attack types, no
   two cases share an identifier, cases of different splits share neither payload nor group, both splits are large
   enough, and where independence is required every group is declared.
   */
  lemma AcceptedExactly(text: Json -> string, isSha: string -> bool, cases: seq<Json>, m: Requirements)
    ensures ManifestCasesOk(text, isSha, cases, m) <==>
      && (forall c <- cases :: IsAcceptable(text, isSha, c, m.independent))
      && (forall i, j :: 0 <= i < j < |cases| ==> !Clash(text, cases[i], cases[j]))
      && LargeEnough(text, cases, m, "calibration") && LargeEnough(text, cases, m, "holdout")
  {
    forall c <- cases
      ensures IsAcceptable(text, isSha, c, m.independent) <==>
        FieldsOk(text, isSha, c) && (m.independent ==> !Derived(text, c))
    {
      AcceptableExactly(text, isSha, c, m.independent);
    }
    NoClashExactly(text, cases);
    if forall c <- cases :: FieldsOk(text, isSha, c) {
      LargeEnoughExactly(text, isSha, cases, m, CALIBRATION);
      LargeEnoughExactly(text, isSha, cases, m, HOLDOUT);
    }
  }

  predicate IsAcceptable(text: Json -> string, isSha: string -> bool, c: Json, independent: bool) {
    && c.Obj? && Text(text, c, "case_id") != ""
    && (Text(text, c, "split") == "calibration" || Text(text, c, "split") == "holdout")
    && match Text(text, c, "role") {
         case "attack" => Text(text, c, "attack_type") in ATTACK_TYPES
         case "negative_control" => Text(text, c, "attack_type") == ""
         case _ => false
       }
    && (|| Text(text, c, "semantic_group_source") == "explicit"
        || (!independent && Text(text, c, "semantic_group_source") == "derived_exact_payload"))
    && forall f <- ["payload_sha256", "semantic_group_id", "oracle_sha256"] :: isSha(Text(text, c, f))
  }

  lemma AcceptableExactly(text: Json -> string, isSha: string -> bool, c: Json, independent: bool)
    ensures IsAcceptable(text, isSha, c, independent) <==>
      FieldsOk(text, isSha, c) && (independent ==> !Derived(text, c))
  {
    var digests := ["payload_sha256", "semantic_group_id", "oracle_sha256"];
    assert digests[0] == PAYLOAD && digests[1] == GROUP && digests[2] == ORACLE;
  }

  /** Two cases with one identifier, or of different splits with a payload or a group in common. */
  predicate Clash(text: Json -> string, a: Json, b: Json) {
    || Text(text, a, "case_id") == Text(text, b, "case_id")
    || (Text(text, a, "split") != Text(text, b, "split")
        && (|| Text(text, a, "payload_sha256") == Text(text, b, "payload_sha256")
            || Text(text, a, "semantic_group_id") == Text(text, b, "semantic_group_id")))
  }

  lemma NoClashExactly(text: Json -> string, cases: seq<Json>)
    ensures (forall i, j :: 0 <= i < j < |cases| ==> !Clash(text, cases[i], cases[j])) <==>
      IdsDistinct(text, cases) && KeepsSplits(text, PAYLOAD, cases) && KeepsSplits(text, GROUP, cases)
  {
  }

  predicate LargeEnough(text: Json -> string, cases: seq<Json>, m: Requirements, split: string) {
    && |AttackPlaces(text, cases, split, ATTACK_TYPES)| >= m.attacks
    && |NegativePlaces(text, cases, split)| >= m.negatives
    && forall t <- ATTACK_TYPES :: |AttackPlaces(text, cases, split, {t})| >= m.attacksPerType
  }

  lemma LargeEnoughExactly(text: Json -> string, isSha: string -> bool, cases: seq<Json>, m: Requirements,
                           split: string)
    requires forall c <- cases :: FieldsOk(text, isSha, c)
    ensures EnoughIn(text, cases, m, split) <==> LargeEnough(text, cases, m, split)
  {
    CountAttackPlaces(text, cases, split);
    CountNegativePlaces(text, cases, split);
    forall t <- ATTACK_TYPES
      ensures CountType(text, cases, split, t) == |AttackPlaces(text, cases, split, {t})|
    {
      CountTypePlaces(text, cases, split, t);
    }
  }

  // ---------------------------------------------------------------- what the loop remembers

  /** The digests seen so far, each with the split in which it was first seen. */
  predicate Remembers(text: Json -> string, field: string, cases: seq<Json>, splits: map<string, string>) {
    && (forall c <- cases :: Text(text, c, field) in splits && splits[Text(text, c, field)] == Split(text, c))
    && forall d <- splits :: exists c <- cases :: Text(text, c, field) == d
  }

  predicate FreshId(text: Json -> string, cases: seq<Json>, c: Json) {
    forall b <- cases :: Id(text, b) != Id(text, c)
  }

  predicate Agrees(text: Json -> string, field: string, cases: seq<Json>, c: Json) {
    forall b <- cases :: Text(text, b, field) == Text(text, c, field) ==> Split(text, b) == Split(text, c)
  }

  lemma CasesValidStep(text: Json -> string, isSha: string -> bool, cases: seq<Json>, c: Json)
    ensures CasesValid(text, isSha, cases + [c]) <==>
      && CasesValid(text, isSha, cases) && FieldsOk(text, isSha, c) && FreshId(text, cases, c)
      && Agrees(text, PAYLOAD, cases, c) && Agrees(text, GROUP, cases, c)
  {
    IdsStep(text, cases, c);
    SplitsStep(text, PAYLOAD, cases, c);
    SplitsStep(text, GROUP, cases, c);
    assert c in cases + [c] && forall b <- cases :: b in cases + [c];
  }

  lemma IdsStep(text: Json -> string, cases: seq<Json>, c: Json)
    ensures IdsDistinct(text, cases + [c]) <==> IdsDistinct(text, cases) && FreshId(text, cases, c)
  {
    var longer, n := cases + [c], |cases|;
    assert longer[n] == c && forall i :: 0 <= i < n ==> longer[i] == cases[i];
    if IdsDistinct(text, longer) {
      assert forall i :: 0 <= i < n ==> Id(text, longer[i]) != Id(text, longer[n]);
    }
  }

  lemma SplitsStep(text: Json -> string, field: string, cases: seq<Json>, c: Json)
    ensures KeepsSplits(text, field, cases + [c]) <==> KeepsSplits(text, field, cases) && Agrees(text, field, cases, c)
  {
    var longer, n := cases + [c], |cases|;
    assert longer[n] == c && forall i :: 0 <= i < n ==> longer[i] == cases[i];
    if KeepsSplits(text, field, longer) {
      forall b | b in cases && Text(text, b, field) == Text(text, c, field) ensures Split(text, b) == Split(text, c) {
        var i :| 0 <= i < n && cases[i] == b;
        assert longer[i] == b;
      }
    }
  }

  // ---------------------------------------------------------------- the code

  method CheckFields(text: Json -> string, isSha: string -> bool, c: Json) returns (problems: seq<Problem>)
    requires c.Obj?
    ensures problems == [] <==> FieldsOk(text, isSha, c)
  {
    problems := [];
    if Id(text, c) == "" {
      problems := problems + [IdRequired];
    }
    if Split(text, c) !in {CALIBRATION, HOLDOUT} {
      problems := problems + [InvalidSplit];
    }
    var role, attackType := RoleOf(text, c), AttackType(text, c);
    if role !in {ATTACK, NEGATIVE} {
      problems := problems + [InvalidRole];
    }
    if role == ATTACK && attackType !in ATTACK_TYPES {
      problems := problems + [InvalidAttackType];
    }
    if role == NEGATIVE && attackType != "" {
      problems := problems + [AttackTypeNotEmpty];
    }
    if Text(text, c, "semantic_group_source") !in {"explicit", "derived_exact_payload"} {
      problems := problems + [InvalidGroupSource];
    }
    if !isSha(Text(text, c, PAYLOAD)) {
      problems := problems + [Malformed(PAYLOAD)];
    }
    if !isSha(Text(text, c, GROUP)) {
      problems := problems + [Malformed(GROUP)];
    }
    if !isSha(Text(text, c, ORACLE)) {
      problems := problems + [Malformed(ORACLE)];
    }
  }

  /** `split_map.setdefault(digest, split)` and the comparison after it; a malformed digest is not noted. */
  method NoteDigest(text: Json -> string, isSha: string -> bool, field: string, c: Json, splits: map<string, string>,
                    ghost cases: seq<Json>)
    returns (noted: map<string, string>, crosses: bool)
    ensures crosses ==> isSha(Text(text, c, field))
    ensures Remembers(text, field, cases, splits) && isSha(Text(text, c, field)) ==>
      && (crosses <==> !Agrees(text, field, cases, c))
      && (!crosses ==> Remembers(text, field, cases + [c], noted))
  {
    var digest, split := Text(text, c, field), Split(text, c);
    if !isSha(digest) {
      return splits, false;
    }
    noted := if digest in splits then splits else splits[digest := split];
    crosses := noted[digest] != split;
    if Remembers(text, field, cases, splits) && !crosses {
      forall d | d in noted ensures exists b <- cases + [c] :: Text(text, b, field) == d {
        if d in splits {
          var b :| b in cases && Text(text, b, field) == d;
          assert b in cases + [c];
        } else {
          assert c in cases + [c];
        }
      }
    }
  }

  function Ids(text: Json -> string, cases: seq<Json>): set<string> {
    set c <- cases :: Id(text, c)
  }

  ghost predicate Notes(text: Json -> string, cases: seq<Json>, seenIds: set<string>, payloads: map<string, string>,
                        groups: map<string, string>)
  {
    seenIds == Ids(text, cases) && Remembers(text, PAYLOAD, cases, payloads) && Remembers(text, GROUP, cases, groups)
  }

  /** One turn of the loop, without the counters. */
  method CheckCase(text: Json -> string, isSha: string -> bool, c: Json, seenIds: set<string>,
                   payloadSplits: map<string, string>, groupSplits: map<string, string>, ghost cases: seq<Json>)
    returns (problems: seq<Problem>, seen: set<string>, payloads: map<string, string>, groups: map<string, string>)
    requires c.Obj?
    requires CasesValid(text, isSha, cases) ==> Notes(text, cases, seenIds, payloadSplits, groupSplits)
    ensures CasesValid(text, isSha, cases) ==> (problems == [] <==> CasesValid(text, isSha, cases + [c]))
    ensures CasesValid(text, isSha, cases + [c]) ==> Notes(text, cases + [c], seen, payloads, groups)
  {
    problems := CheckFields(text, isSha, c);
    var id := Id(text, c);
    if id != "" && id in seenIds {
      problems := problems + [DuplicateId];
    }
    seen := seenIds + {id};
    var payloadCrosses, groupCrosses: bool;
    payloads, payloadCrosses := NoteDigest(text, isSha, PAYLOAD, c, payloadSplits, cases);
    groups, groupCrosses := NoteDigest(text, isSha, GROUP, c, groupSplits, cases);
    if payloadCrosses {
      problems := problems + [CrossesSplits(PAYLOAD)];
    }
    if groupCrosses {
      problems := problems + [CrossesSplits(GROUP)];
    }
    CasesValidStep(text, isSha, cases, c);
    IdsAfter(text, cases, c);
  }

  lemma IdsAfter(text: Json -> string, cases: seq<Json>, c: Json)
    ensures Ids(text, cases + [c]) == Ids(text, cases) + {Id(text, c)}
    ensures Id(text, c) in Ids(text, cases) <==> !FreshId(text, cases, c)
  {
  }

  method ValidateCases(text: Json -> string, isSha: string -> bool, cases: seq<Json>, m: Requirements)
    returns (errors: seq<Problem>)
    ensures errors == [] <==> ManifestCasesOk(text, isSha, cases, m)
  {
    errors := [];
    var seenIds: set<string> := {};
    var payloadSplits: map<string, string>, groupSplits: map<string, string> := map[], map[];
    var roles: map<(string, string), nat>, types: map<(string, string), nat> := map[], map[];
    var derived := 0;
    for i := 0 to |cases|
      invariant errors == [] <==> CasesValid(text, isSha, cases[..i])
      invariant CasesValid(text, isSha, cases[..i]) ==> Notes(text, cases[..i], seenIds, payloadSplits, groupSplits)
      invariant Counted(text, cases[..i], roles, types, derived)
    {
      var c := cases[i];
      assert cases[..i + 1] == cases[..i] + [c];
      ValidBefore(text, isSha, cases[..i], c);
      if !c.Obj? {
        errors := errors + [NotObject];
        CountsSkip(text, cases[..i], c, roles, types, derived);
        continue;
      }
      roles, types, derived := CountCase(text, c, roles, types, derived, cases[..i]);
      var problems: seq<Problem>;
      problems, seenIds, payloadSplits, groupSplits :=
        CheckCase(text, isSha, c, seenIds, payloadSplits, groupSplits, cases[..i]);
      errors := errors + problems;
    }
    assert cases[..|cases|] == cases;
    var missing := CheckTotals(text, cases, m, roles, types, derived);
    errors := errors + missing;
  }

  /** What is checked after the loop. */
  method CheckTotals(text: Json -> string, ghost cases: seq<Json>, m: Requirements, roles: map<(string, string), nat>,
                     types: map<(string, string), nat>, derived: nat)
    returns (problems: seq<Problem>)
    requires Counted(text, cases, roles, types, derived)
    ensures problems == [] <==>
      && EnoughIn(text, cases, m, CALIBRATION) && EnoughIn(text, cases, m, HOLDOUT)
      && (m.independent ==> GroupsDeclared(text, cases))
  {
    var calibration := CheckCounts(text, cases, m, roles, types, derived, CALIBRATION);
    var holdout := CheckCounts(text, cases, m, roles, types, derived, HOLDOUT);
    CountDerivedExact(text, cases);
    problems := calibration + holdout + if m.independent && derived > 0 then [DerivedGroups(derived)] else [];
  }

  lemma DerivedStep(text: Json -> string, cases: seq<Json>, c: Json)
    ensures CountDerived(text, cases + [c]) == CountDerived(text, cases) + if Derived(text, c) then 1 else 0
  {
    assert (cases + [c])[..|cases|] == cases;
  }

  /** Cases that are valid with one more were valid without it, and all of them are objects. */
  lemma ValidBefore(text: Json -> string, isSha: string -> bool, cases: seq<Json>, c: Json)
    ensures CasesValid(text, isSha, cases + [c]) ==> CasesValid(text, isSha, cases) && c.Obj?
  {
    CasesValidStep(text, isSha, cases, c);
  }

  function Count(counts: map<(string, string), nat>, a: string, b: string): nat {
    if (a, b) in counts then counts[(a, b)] else 0
  }

  /** The counters hold the number of cases of each role, of each attack type, and with a derived group. */
  ghost predicate Counted(text: Json -> string, cases: seq<Json>, roles: map<(string, string), nat>,
                          types: map<(string, string), nat>, derived: nat)
  {
    && derived == CountDerived(text, cases)
    && (forall s, r :: Count(roles, s, r) == CountRole(text, cases, s, r))
    && forall s, t :: Count(types, s, t) == CountType(text, cases, s, t)
  }

  /** The counters after an object case. */
  method CountCase(text: Json -> string, c: Json, roles: map<(string, string), nat>, types: map<(string, string), nat>,
                   derived: nat, ghost cases: seq<Json>)
    returns (moreRoles: map<(string, string), nat>, moreTypes: map<(string, string), nat>, moreDerived: nat)
    requires c.Obj? && Counted(text, cases, roles, types, derived)
    ensures Counted(text, cases + [c], moreRoles, moreTypes, moreDerived)
  {
    DerivedStep(text, cases, c);
    moreDerived := if Derived(text, c) then derived + 1 else derived;
    assert (cases + [c])[..|cases|] == cases;
    var split, role := Split(text, c), RoleOf(text, c);
    moreRoles, moreTypes := roles[(split, role) := Count(roles, split, role) + 1], types;
    if role == ATTACK {
      moreTypes := types[(split, AttackType(text, c)) := Count(types, split, AttackType(text, c)) + 1];
    }
  }

  lemma CountsSkip(text: Json -> string, cases: seq<Json>, c: Json, roles: map<(string, string), nat>,
                   types: map<(string, string), nat>, derived: nat)
    requires !c.Obj? && Counted(text, cases, roles, types, derived)
    ensures Counted(text, cases + [c], roles, types, derived)
  {
    assert (cases + [c])[..|cases|] == cases;
  }

  method CheckCounts(text: Json -> string, ghost cases: seq<Json>, m: Requirements, roles: map<(string, string), nat>,
                     types: map<(string, string), nat>, ghost derived: nat, split: string)
    returns (problems: seq<Problem>)
    requires Counted(text, cases, roles, types, derived)
    ensures problems == [] <==> EnoughIn(text, cases, m, split)
  {
    problems := [];
    if Count(roles, split, ATTACK) < m.attacks {
      problems := problems + [TooFew(split, ATTACK)];
    }
    if Count(roles, split, NEGATIVE) < m.negatives {
      problems := problems + [TooFew(split, NEGATIVE)];
    }
    if m.attacksPerType != 0 {
      var tooFew := CheckTypes(text, cases, m, types, split);
      problems := problems + tooFew;
    }
  }

  method CheckTypes(text: Json -> string, ghost cases: seq<Json>, m: Requirements, types: map<(string, string), nat>,
                    split: string)
    returns (problems: seq<Problem>)
    requires forall s, t :: Count(types, s, t) == CountType(text, cases, s, t)
    ensures problems == [] <==> forall t <- ATTACK_TYPES :: CountType(text, cases, split, t) >= m.attacksPerType
  {
    problems := [];
    var left, done: set<string> := ATTACK_TYPES, {};
    while left != {}
      invariant left + done == ATTACK_TYPES
      invariant problems == [] <==> forall t <- done :: CountType(text, cases, split, t) >= m.attacksPerType
    {
      var t :| t in left;
      assert Count(types, split, t) == CountType(text, cases, split, t);
      if Count(types, split, t) < m.attacksPerType {
        problems := problems + [TooFewOfType(split, t)];
      }
      left, done := left - {t}, done + {t};
    }
  }
}
