/**
 `enrich` and `_decollide` of scripts/enrich_csab_gov_mini.py: cases with the same fingerprint are made
 addressable by a `variant_index` among their arguments. `digest` is the fingerprint of the nine parts,
 `dictOf` is Python's `dict` on a true value that is not an object (None where it raises).
 */
module Enrichment {
  import opened Common
  import opened JsonValues

  const VARIANT := "variant_index"

  datatype Document = Document(standard: string, clause: string, title: string)

  /** A case of the suite, with the order of its keys; a missing payload reads as one without fields. */
  datatype Case = Case(
    id: string, dimension: string, attackType: string, toolName: string, userRole: string, message: string,
    arguments: Option<Json>, inputSources: Json, sessionHistory: Json, expected: string, policyRefs: seq<string>,
    kind: string, documents: seq<Document>, fingerprint: string, keys: seq<string>)

  datatype Parts = Parts(
    dimension: string, attackType: string, toolName: string, userRole: string, message: string, arguments: Json,
    inputSources: Json, sessionHistory: Json, expected: string)

  function Arguments(c: Case): Json {
    if c.arguments.Some? then c.arguments.value else Obj(map[])
  }

  function PartsOf(c: Case): Parts {
    Parts(c.dimension, c.attackType, c.toolName, c.userRole, c.message, Arguments(c), c.inputSources, c.sessionHistory,
          c.expected)
  }

  type AsDict = Json -> Option<map<string, Json>>

  /** `dict(payload.get("arguments", {}) or {})`. */
  function Objectified(dictOf: AsDict, c: Case): Option<map<string, Json>> {
    var arguments := Arguments(c);
    if !Truthy(arguments) then Some(map[])
    else if arguments.Obj? then Some(arguments.fields)
    else dictOf(arguments)
  }

  /** Assigning to a key that a dictionary lacks adds it at the end. */
  function WithKey(keys: seq<string>, key: string): seq<string> {
    if key in keys then keys else keys + [key]
  }

  function Tagged(dictOf: AsDict, digest: Parts -> string, c: Case, position: int): Case {
    var arguments := Objectified(dictOf, c);
    if arguments.None? then c
    else
      var tagged := c.(arguments := Some(Obj(arguments.value[VARIANT := Num(position)])),
                       keys := WithKey(c.keys, "input_payload"));
      tagged.(fingerprint := digest(PartsOf(tagged)))
  }

  // ---------------------------------------------------------------- groups

  /** The indices of the cases with a fingerprint, in order. */
  function Indices(cases: seq<Case>, f: string): seq<nat> {
    if cases == [] then []
    else
      var n := |cases| - 1;
      Indices(cases[..n], f) + if cases[n].fingerprint == f then [n] else []
  }

  /** The place of a case in its group, from 1. */
  function Position(cases: seq<Case>, i: nat): nat
    requires i < |cases|
  {
    |Indices(cases[..i], cases[i].fingerprint)| + 1
  }

  predicate Duplicate(cases: seq<Case>, i: nat)
    requires i < |cases|
  {
    |Indices(cases, cases[i].fingerprint)| > 1
  }

  function After(dictOf: AsDict, digest: Parts -> string, cases: seq<Case>, i: nat): Case
    requires i < |cases|
  {
    if Duplicate(cases, i) then Tagged(dictOf, digest, cases[i], Position(cases, i)) else cases[i]
  }

  predicate CanTag(dictOf: AsDict, cases: seq<Case>) {
    forall i :: 0 <= i < |cases| && Duplicate(cases, i) ==> Objectified(dictOf, cases[i]).Some?
  }

  function Decollided(dictOf: AsDict, digest: Parts -> string, cases: seq<Case>): (r: seq<Case>)
    ensures |r| == |cases| && forall i :: 0 <= i < |r| ==> r[i] == After(dictOf, digest, cases, i)
  {
    seq(|cases|, i requires 0 <= i < |cases| => After(dictOf, digest, cases, i))
  }

  lemma {:induction false} IndicesFacts(cases: seq<Case>, f: string)
    ensures forall k :: 0 <= k < |Indices(cases, f)| ==>
      Indices(cases, f)[k] < |cases| && cases[Indices(cases, f)[k]].fingerprint == f
    ensures forall k :: 0 <= k < |Indices(cases, f)| ==> Position(cases, Indices(cases, f)[k]) == k + 1
  {
    if cases == [] {
    } else {
      var n := |cases| - 1;
      IndicesFacts(cases[..n], f);
      var before, all := Indices(cases[..n], f), Indices(cases, f);
      forall k | 0 <= k < |all|
        ensures all[k] < |cases| && cases[all[k]].fingerprint == f && Position(cases, all[k]) == k + 1
      {
        if k < |before| {
          assert all[k] == before[k] && cases[..n][before[k]] == cases[before[k]];
          assert Position(cases[..n], before[k]) == k + 1;
          assert cases[..n][..before[k]] == cases[..before[k]];
        }
      }
    }
  }

  lemma {:induction false} EveryCaseIsListed(cases: seq<Case>, i: nat)
    requires i < |cases|
    ensures var all := Indices(cases, cases[i].fingerprint);
      Position(cases, i) <= |all| && all[Position(cases, i) - 1] == i
  {
    var n := |cases| - 1;
    if i == n {
    } else {
      EveryCaseIsListed(cases[..n], i);
      assert cases[..n][..i] == cases[..i];
    }
  }

  /** Two cases with one fingerprint are duplicates, at different positions; a duplicate has a partner. */
  lemma PartnersAreDuplicates(cases: seq<Case>, i: nat, j: nat)
    requires i < |cases| && j < |cases| && i != j && cases[i].fingerprint == cases[j].fingerprint
    ensures Duplicate(cases, i) && Position(cases, i) != Position(cases, j)
  {
    EveryCaseIsListed(cases, i);
    EveryCaseIsListed(cases, j);
  }

  /** A group of duplicates has a case at each of the first two positions. */
  lemma FirstTwo(cases: seq<Case>, i: nat) returns (first: nat, second: nat)
    requires i < |cases| && Duplicate(cases, i)
    ensures first < |cases| && second < |cases|
      && cases[first].fingerprint == cases[second].fingerprint == cases[i].fingerprint
    ensures Position(cases, first) == 1 && Position(cases, second) == 2 && Duplicate(cases, first)
      && Duplicate(cases, second)
  {
    var all := Indices(cases, cases[i].fingerprint);
    IndicesFacts(cases, cases[i].fingerprint);
    first, second := all[0], all[1];
  }

  // ---------------------------------------------------------------- one pass

  function DeriveKind(attackType: string): string {
    if "benign_" <= attackType then "benign_control"
    else if attackType in {"audit_decision_coverage", "audit_hash_chain", "audit_required_red_tool"} then
      "assurance_check"
    else "attack_case"
  }

  type Cite = (seq<string>, string) -> seq<Document>

  /** `cite` derives the source documents from the policy references and the dimension. */
  function Prepared(cite: Cite, digest: Parts -> string, c: Case): Case {
    c.(kind := DeriveKind(c.attackType), documents := cite(c.policyRefs, c.dimension),
       fingerprint := digest(PartsOf(c)),
       keys := WithKey(WithKey(WithKey(c.keys, "case_kind"), "source_documents"), "fingerprint"))
  }

  function PreparedAll(cite: Cite, digest: Parts -> string, cases: seq<Case>): (r: seq<Case>)
    ensures |r| == |cases| && forall i :: 0 <= i < |r| ==> r[i] == Prepared(cite, digest, cases[i])
  {
    seq(|cases|, i requires 0 <= i < |cases| => Prepared(cite, digest, cases[i]))
  }

  // ---------------------------------------------------------------- key order and counts

  const CASE_KEY_ORDER: seq<string> := [
    "case_id", "dimension", "attack_type", "case_kind", "input_payload", "expected_decision", "expected_taint",
    "severity", "policy_refs", "source_documents", "fingerprint", "note"
  ]

  /** The elements of `some` that are (or are not) among `others`, in order. */
  function Selected(some: seq<string>, others: seq<string>, among: bool): seq<string> {
    if some == [] then []
    else
      var n := |some| - 1;
      Selected(some[..n], others, among) + if (some[n] in others) == among then [some[n]] else []
  }

  /** `_reorder`: the known keys in the fixed order, then the others as they were. */
  function Reordered(keys: seq<string>): seq<string> {
    ReorderedBy(CASE_KEY_ORDER, keys)
  }

  function ReorderedBy(order: seq<string>, keys: seq<string>): seq<string> {
    Selected(order, keys, true) + Selected(keys, order, false)
  }

  lemma {:induction false} SelectedExact(some: seq<string>, others: seq<string>, among: bool)
    ensures forall k :: k in Selected(some, others, among) <==> k in some && ((k in others) == among)
    ensures Distinct(some) ==> Distinct(Selected(some, others, among))
  {
    if some == [] {
    } else {
      var n := |some| - 1;
      SelectedExact(some[..n], others, among);
      assert some == some[..n] + [some[n]];
      assert Distinct(some) ==> some[n] !in some[..n];
    }
  }

  lemma {:induction false} SelectedSame(some: seq<string>, others: seq<string>, more: seq<string>, among: bool)
    requires forall k <- some :: k in others <==> k in more
    ensures Selected(some, others, among) == Selected(some, more, among)
  {
    if some == [] {
    } else {
      SelectedSame(some[..|some| - 1], others, more, among);
      assert some[|some| - 1] in some;
    }
  }

  lemma {:induction false} SelectedSplit(a: seq<string>, b: seq<string>, others: seq<string>, among: bool)
    ensures Selected(a + b, others, among) == Selected(a, others, among) + Selected(b, others, among)
  {
    if b == [] {
      assert a + b == a;
    } else {
      var n := |b| - 1;
      SelectedSplit(a, b[..n], others, among);
      assert (a + b)[..|a + b| - 1] == a + b[..n];
    }
  }

  lemma {:induction false} SelectedAllOrNone(some: seq<string>, others: seq<string>, among: bool)
    ensures (forall k <- some :: (k in others) == among) ==> Selected(some, others, among) == some
    ensures (forall k <- some :: (k in others) != among) ==> Selected(some, others, among) == []
  {
    if some == [] {
    } else {
      var n := |some| - 1;
      assert some == some[..n] + [some[n]];
      SelectedAllOrNone(some[..n], others, among);
    }
  }

  /** Reordering keeps every key once, brings the known ones to the front, and does nothing the second time. */
  lemma ReorderingFacts(keys: seq<string>)
    requires Distinct(keys)
    ensures Distinct(Reordered(keys)) && forall k :: k in Reordered(keys) <==> k in keys
    ensures Reordered(Reordered(keys)) == Reordered(keys)
  {
    OrderIsDistinct();
    ReorderingKeepsKeys(CASE_KEY_ORDER, keys);
    ReorderingIsIdempotent(CASE_KEY_ORDER, keys);
  }

  /** `a` stands before `b`. */
  predicate Precedes(keys: seq<string>, a: string, b: string) {
    exists i, j :: 0 <= i < j < |keys| && keys[i] == a && keys[j] == b
  }

  /** Of two keys the known one comes first; known ones come in the fixed order, others as they came before. */
  lemma ReorderingOrder(keys: seq<string>, i: nat, j: nat)
    requires i < j < |Reordered(keys)|
    ensures var (a, b) := (Reordered(keys)[i], Reordered(keys)[j]);
      && (b in CASE_KEY_ORDER ==> a in CASE_KEY_ORDER && Precedes(CASE_KEY_ORDER, a, b))
      && (a !in CASE_KEY_ORDER ==> b !in CASE_KEY_ORDER && Precedes(keys, a, b))
  {
    InOrder(CASE_KEY_ORDER, keys, i, j);
  }

  lemma InOrder(order: seq<string>, keys: seq<string>, i: nat, j: nat)
    requires i < j < |ReorderedBy(order, keys)|
    ensures var (a, b) := (ReorderedBy(order, keys)[i], ReorderedBy(order, keys)[j]);
      && (b in order ==> a in order && Precedes(order, a, b))
      && (a !in order ==> b !in order && Precedes(keys, a, b))
  {
    var known, others := Selected(order, keys, true), Selected(keys, order, false);
    SelectedExact(order, keys, true);
    SelectedExact(keys, order, false);
    assert forall k :: 0 <= k < |known| ==> known[k] in known;
    assert forall k :: 0 <= k < |others| ==> others[k] in others;
    if j < |known| {
      SelectedInOrder(order, keys, true, i, j);
    } else if i >= |known| {
      SelectedInOrder(keys, order, false, i - |known|, j - |known|);
    }
  }

  lemma {:induction false} SelectedInOrder(some: seq<string>, others: seq<string>, among: bool, i: nat, j: nat)
    requires i < j < |Selected(some, others, among)|
    ensures Precedes(some, Selected(some, others, among)[i], Selected(some, others, among)[j])
  {
    var n := |some| - 1;
    var before := Selected(some[..n], others, among);
    if j < |before| {
      SelectedInOrder(some[..n], others, among, i, j);
      var x, y :| 0 <= x < y < n && some[..n][x] == before[i] && some[..n][y] == before[j];
      assert some[x] == before[i] && some[y] == before[j];
    } else {
      SelectedExact(some[..n], others, among);
      assert before[i] in before;
      var x :| 0 <= x < n && some[..n][x] == before[i];
      assert some[x] == before[i] && some[n] == Selected(some, others, among)[j];
    }
  }

  lemma ReorderingKeepsKeys(order: seq<string>, keys: seq<string>)
    requires Distinct(order) && Distinct(keys)
    ensures Distinct(ReorderedBy(order, keys)) && forall k :: k in ReorderedBy(order, keys) <==> k in keys
  {
    SelectedExact(order, keys, true);
    SelectedExact(keys, order, false);
    DistinctJoin(Selected(order, keys, true), Selected(keys, order, false));
  }

  lemma DistinctJoin(a: seq<string>, b: seq<string>)
    requires Distinct(a) && Distinct(b) && forall x <- b :: x !in a
    ensures Distinct(a + b)
  {
    var c := a + b;
    forall i, j | 0 <= i < j < |c| ensures c[i] != c[j] {
      if j < |a| {
        assert c[i] == a[i] && c[j] == a[j];
      } else if i < |a| {
        assert c[i] == a[i] && a[i] in a && c[j] == b[j - |a|] && b[j - |a|] in b;
      } else {
        assert c[i] == b[i - |a|] && c[j] == b[j - |a|];
      }
    }
  }

  lemma ReorderingIsIdempotent(order: seq<string>, keys: seq<string>)
    requires Distinct(order) && Distinct(keys)
    ensures ReorderedBy(order, ReorderedBy(order, keys)) == ReorderedBy(order, keys)
  {
    ReorderingKeepsKeys(order, keys);
    SelectedSame(order, keys, ReorderedBy(order, keys), true);
    BackStays(order, keys);
  }

  lemma BackStays(order: seq<string>, keys: seq<string>)
    ensures Selected(ReorderedBy(order, keys), order, false) == Selected(keys, order, false)
  {
    var front, back := Selected(order, keys, true), Selected(keys, order, false);
    SelectedSplit(front, back, order, false);
    FrontIsKnown(order, keys);
    BackIsUnknown(order, keys);
  }

  lemma FrontIsKnown(order: seq<string>, keys: seq<string>)
    ensures Selected(Selected(order, keys, true), order, false) == []
  {
    SelectedExact(order, keys, true);
    SelectedAllOrNone(Selected(order, keys, true), order, false);
  }

  lemma BackIsUnknown(order: seq<string>, keys: seq<string>)
    ensures Selected(Selected(keys, order, false), order, false) == Selected(keys, order, false)
  {
    SelectedExact(keys, order, false);
    SelectedAllOrNone(Selected(keys, order, false), order, false);
  }

  lemma OrderIsDistinct()
    ensures Distinct(CASE_KEY_ORDER)
  {
  }

  function CountKind(cases: seq<Case>, kind: string): nat {
    if cases == [] then 0 else CountKind(cases[..|cases| - 1], kind) + if cases[|cases| - 1].kind == kind then 1 else 0
  }

  /** The suite after a pass: its cases, and the two counts of the metadata. */
  datatype Suite = Suite(cases: seq<Case>, total: nat, kinds: map<string, nat>)

  function KindCounts(cases: seq<Case>): map<string, nat> {
    map c <- cases :: c.kind := CountKind(cases, c.kind)
  }

  function ReorderedAll(cases: seq<Case>): (r: seq<Case>)
    ensures |r| == |cases| && forall i :: 0 <= i < |r| ==> r[i] == cases[i].(keys := Reordered(cases[i].keys))
  {
    seq(|cases|, i requires 0 <= i < |cases| => cases[i].(keys := Reordered(cases[i].keys)))
  }

  function Summarized(cases: seq<Case>): Suite {
    Suite(ReorderedAll(cases), |cases|, KindCounts(cases))
  }

  /** `enrich`, or None where it raises. */
  function Enriched(cite: Cite, digest: Parts -> string, dictOf: AsDict, cases: seq<Case>): Option<Suite> {
    var prepared := PreparedAll(cite, digest, cases);
    if CanTag(dictOf, prepared) then Some(Summarized(Decollided(dictOf, digest, prepared))) else None
  }

  // ---------------------------------------------------------------- when fingerprints become unique

  predicate Unique(cases: seq<Case>) {
    forall i, j :: 0 <= i < j < |cases| ==> cases[i].fingerprint != cases[j].fingerprint
  }

  /** No case carries a variant index yet. */
  predicate Untagged(dictOf: AsDict, c: Case) {
    && (Arguments(c).Obj? ==> VARIANT !in Arguments(c).fields)
    && (Objectified(dictOf, c).Some? ==> VARIANT !in Objectified(dictOf, c).value)
  }

  ghost predicate Injective(digest: Parts -> string) {
    forall a, b :: digest(a) == digest(b) ==> a == b
  }

  /** The nine parts as they would be with the arguments read as an object. */
  function ObjectParts(dictOf: AsDict, c: Case): Parts {
    var arguments := Objectified(dictOf, c);
    PartsOf(c).(arguments := if arguments.Some? then Obj(arguments.value) else Arguments(c))
  }

  /** Two groups of duplicates that differ only in how they spell the same arguments. */
  predicate Confusable(dictOf: AsDict, cases: seq<Case>, i: nat, j: nat)
    requires i < |cases| && j < |cases|
  {
    && Duplicate(cases, i) && Duplicate(cases, j)
    && cases[i].fingerprint != cases[j].fingerprint
    && ObjectParts(dictOf, cases[i]) == ObjectParts(dictOf, cases[j])
  }

  predicate GroupsStayApart(dictOf: AsDict, cases: seq<Case>) {
    forall i, j :: 0 <= i < |cases| && 0 <= j < |cases| ==> !Confusable(dictOf, cases, i, j)
  }

  predicate Fingerprinted(digest: Parts -> string, cases: seq<Case>) {
    forall c <- cases :: c.fingerprint == digest(PartsOf(c))
  }

  lemma TaggedParts(dictOf: AsDict, digest: Parts -> string, c: Case, d: Case, p: int, q: int)
    requires Objectified(dictOf, c).Some? && Objectified(dictOf, d).Some? && Untagged(dictOf, c) && Untagged(dictOf, d)
    ensures PartsOf(Tagged(dictOf, digest, c, p)) == PartsOf(Tagged(dictOf, digest, d, q))
      <==> p == q && ObjectParts(dictOf, c) == ObjectParts(dictOf, d)
  {
    var a, b := Objectified(dictOf, c).value, Objectified(dictOf, d).value;
    var x, y := a[VARIANT := Num(p)], b[VARIANT := Num(q)];
    assert x - {VARIANT} == a && y - {VARIANT} == b;
    assert x == y ==> x[VARIANT] == y[VARIANT];
  }

  lemma TaggedDiffersFromUntagged(dictOf: AsDict, digest: Parts -> string, c: Case, d: Case, p: int)
    requires Objectified(dictOf, c).Some? && Untagged(dictOf, d)
    ensures PartsOf(Tagged(dictOf, digest, c, p)) != PartsOf(d)
  {
    assert VARIANT in Arguments(Tagged(dictOf, digest, c, p)).fields;
  }

  /** Which two cases share a fingerprint after one pass. */
  lemma CollisionAfter(dictOf: AsDict, digest: Parts -> string, cases: seq<Case>, i: nat, j: nat)
    requires Injective(digest) && CanTag(dictOf, cases) && Fingerprinted(digest, cases)
    requires forall c <- cases :: Untagged(dictOf, c)
    requires i < |cases| && j < |cases| && i != j
    ensures After(dictOf, digest, cases, i).fingerprint == After(dictOf, digest, cases, j).fingerprint
      <==> Confusable(dictOf, cases, i, j) && Position(cases, i) == Position(cases, j)
  {
    var c, d := cases[i], cases[j];
    assert c in cases && d in cases;
    if c.fingerprint == d.fingerprint {
      PartnersAreDuplicates(cases, i, j);
      PartnersAreDuplicates(cases, j, i);
    }
    if Duplicate(cases, i) && Duplicate(cases, j) {
      TaggedParts(dictOf, digest, c, d, Position(cases, i), Position(cases, j));
    } else if Duplicate(cases, i) {
      TaggedDiffersFromUntagged(dictOf, digest, c, d, Position(cases, i));
    } else if Duplicate(cases, j) {
      TaggedDiffersFromUntagged(dictOf, digest, d, c, Position(cases, j));
    }
  }

  /** After one pass all fingerprints differ exactly if no two groups of duplicates are confusable. */
  lemma UniqueAfterOnePass(dictOf: AsDict, digest: Parts -> string, cases: seq<Case>)
    requires Injective(digest) && CanTag(dictOf, cases) && Fingerprinted(digest, cases)
    requires forall c <- cases :: Untagged(dictOf, c)
    ensures Unique(Decollided(dictOf, digest, cases)) <==> GroupsStayApart(dictOf, cases)
  {
    var after := Decollided(dictOf, digest, cases);
    if GroupsStayApart(dictOf, cases) {
      forall i, j | 0 <= i < j < |cases| ensures after[i].fingerprint != after[j].fingerprint {
        CollisionAfter(dictOf, digest, cases, i, j);
        assert !Confusable(dictOf, cases, i, j);
      }
    } else {
      var i, j :| 0 <= i < |cases| && 0 <= j < |cases| && Confusable(dictOf, cases, i, j);
      var first, second := ConfusedPair(dictOf, digest, cases, i, j);
      CollisionAfter(dictOf, digest, cases, first, second);
      var a, b := if first < second then first else second, if first < second then second else first;
      assert a < b && after[a].fingerprint == after[b].fingerprint;
    }
  }

  /** The first cases of two confusable groups. */
  lemma ConfusedPair(dictOf: AsDict, digest: Parts -> string, cases: seq<Case>, i: nat, j: nat)
    returns (first: nat, second: nat)
    requires Injective(digest) && Fingerprinted(digest, cases)
    requires i < |cases| && j < |cases| && Confusable(dictOf, cases, i, j)
    ensures first < |cases| && second < |cases| && first != second
    ensures Confusable(dictOf, cases, first, second) && Position(cases, first) == Position(cases, second)
  {
    var ignored: nat;
    first, ignored := FirstTwo(cases, i);
    second, ignored := FirstTwo(cases, j);
    assert cases[first] in cases && cases[second] in cases && cases[i] in cases && cases[j] in cases;
    assert PartsOf(cases[first]) == PartsOf(cases[i]) && PartsOf(cases[second]) == PartsOf(cases[j]);
  }

  // ---------------------------------------------------------------- idempotence

  lemma NoDuplicatesNoChange(dictOf: AsDict, digest: Parts -> string, cases: seq<Case>)
    requires Unique(cases)
    ensures CanTag(dictOf, cases) && Decollided(dictOf, digest, cases) == cases
  {
    forall i | 0 <= i < |cases| ensures !Duplicate(cases, i) {
      if Duplicate(cases, i) {
        DuplicatesAreNotUnique(cases, i);
      }
    }
  }

  lemma DuplicatesAreNotUnique(cases: seq<Case>, i: nat)
    requires i < |cases| && Duplicate(cases, i)
    ensures !Unique(cases)
  {
    var first, second := FirstTwo(cases, i);
    var a, b := if first < second then first else second, if first < second then second else first;
    assert a < b && cases[a].fingerprint == cases[b].fingerprint;
  }

  /** A second pass renumbers a group that the first one left with a common fingerprint. */
  lemma DuplicatesChange(dictOf: AsDict, digest: Parts -> string, cases: seq<Case>) returns (k: nat)
    requires Injective(digest) && Fingerprinted(digest, cases) && CanTag(dictOf, cases) && !Unique(cases)
    ensures k < |cases| && Arguments(Decollided(dictOf, digest, cases)[k]) != Arguments(cases[k])
  {
    var i, j :| 0 <= i < j < |cases| && cases[i].fingerprint == cases[j].fingerprint;
    PartnersAreDuplicates(cases, i, j);
    var first, second := FirstTwo(cases, i);
    var after := Decollided(dictOf, digest, cases);
    var a, b := after[first], after[second];
    assert a.arguments.value.fields[VARIANT] == Num(1) && b.arguments.value.fields[VARIANT] == Num(2);
    assert cases[first] in cases && cases[second] in cases;
    assert PartsOf(cases[first]) == PartsOf(cases[second]);
    assert Arguments(a) != Arguments(b);
    k := if Arguments(a) != Arguments(cases[first]) then first else second;
  }

  lemma PreparedStays(cite: Cite, digest: Parts -> string, dictOf: AsDict, cases: seq<Case>)
    ensures var prepared := PreparedAll(cite, digest, cases);
      Fingerprinted(digest, prepared) && Fingerprinted(digest, ReorderedAll(Decollided(dictOf, digest, prepared)))
  {
    var prepared := PreparedAll(cite, digest, cases);
    var after := Decollided(dictOf, digest, prepared);
    forall i | 0 <= i < |after| ensures after[i].fingerprint == digest(PartsOf(after[i])) {
      assert after[i] == After(dictOf, digest, prepared, i);
    }
    forall c | c in ReorderedAll(after) ensures c.fingerprint == digest(PartsOf(c)) {
      var i :| 0 <= i < |after| && ReorderedAll(after)[i] == c;
    }
  }

  /** A case as a pass leaves it is prepared already: nothing is derived anew and no key is added. */
  lemma LeftCaseIsPrepared(cite: Cite, digest: Parts -> string, dictOf: AsDict, c: Case, position: int, tag: bool)
    requires Distinct(c.keys)
    ensures var prepared := Prepared(cite, digest, c);
      var after := if tag then Tagged(dictOf, digest, prepared, position) else prepared;
      var left := after.(keys := Reordered(after.keys));
      Prepared(cite, digest, left) == left && Distinct(left.keys) && Reordered(left.keys) == left.keys
  {
    var prepared := Prepared(cite, digest, c);
    var after := if tag then Tagged(dictOf, digest, prepared, position) else prepared;
    PreparedKeys(cite, digest, c);
    WithKeyDistinct(prepared.keys, "input_payload");
    ReorderingFacts(after.keys);
  }

  lemma WithKeyDistinct(keys: seq<string>, key: string)
    requires Distinct(keys)
    ensures Distinct(WithKey(keys, key)) && key in WithKey(keys, key) && forall k <- keys :: k in WithKey(keys, key)
  {
  }

  lemma PreparedKeys(cite: Cite, digest: Parts -> string, c: Case)
    requires Distinct(c.keys)
    ensures var keys := Prepared(cite, digest, c).keys;
      Distinct(keys) && "case_kind" in keys && "source_documents" in keys && "fingerprint" in keys
  {
    WithKeyDistinct(c.keys, "case_kind");
    WithKeyDistinct(WithKey(c.keys, "case_kind"), "source_documents");
    WithKeyDistinct(WithKey(WithKey(c.keys, "case_kind"), "source_documents"), "fingerprint");
  }

  lemma LeftCasesArePrepared(cite: Cite, digest: Parts -> string, dictOf: AsDict, cases: seq<Case>)
    requires forall c <- cases :: Distinct(c.keys)
    ensures var left := ReorderedAll(Decollided(dictOf, digest, PreparedAll(cite, digest, cases)));
      PreparedAll(cite, digest, left) == left && ReorderedAll(left) == left
  {
    var prepared := PreparedAll(cite, digest, cases);
    var left := ReorderedAll(Decollided(dictOf, digest, prepared));
    forall i | 0 <= i < |left|
      ensures Prepared(cite, digest, left[i]) == left[i] && Reordered(left[i].keys) == left[i].keys {
      assert cases[i] in cases;
      LeftCaseIsPrepared(cite, digest, dictOf, cases[i], Position(prepared, i), Duplicate(prepared, i));
    }
  }

  lemma {:induction false} SameKindsSameCounts(a: seq<Case>, b: seq<Case>, kind: string)
    requires |a| == |b| && forall i :: 0 <= i < |a| ==> a[i].kind == b[i].kind
    ensures CountKind(a, kind) == CountKind(b, kind)
  {
    if a == [] {
    } else {
      SameKindsSameCounts(a[..|a| - 1], b[..|b| - 1], kind);
    }
  }

  lemma ReorderingKeepsCounts(cases: seq<Case>)
    ensures KindCounts(ReorderedAll(cases)) == KindCounts(cases)
  {
    SameKinds(ReorderedAll(cases), cases);
  }

  lemma ReorderingKeepsUnique(cases: seq<Case>)
    ensures Unique(ReorderedAll(cases)) <==> Unique(cases)
  {
    assert forall i :: 0 <= i < |cases| ==> ReorderedAll(cases)[i].fingerprint == cases[i].fingerprint;
  }

  lemma SameKinds(a: seq<Case>, b: seq<Case>)
    requires |a| == |b| && forall i :: 0 <= i < |a| ==> a[i].kind == b[i].kind
    ensures KindCounts(a) == KindCounts(b)
  {
    SameKindsSameKeys(a, b);
    SameKindsSameKeys(b, a);
    forall kind | kind in KindCounts(a) ensures KindCounts(a)[kind] == KindCounts(b)[kind] {
      SameKindsSameCounts(a, b, kind);
    }
  }

  lemma SameKindsSameKeys(a: seq<Case>, b: seq<Case>)
    requires |a| == |b| && forall i :: 0 <= i < |a| ==> a[i].kind == b[i].kind
    ensures KindCounts(a).Keys <= KindCounts(b).Keys
  {
    forall kind | kind in KindCounts(a) ensures kind in KindCounts(b) {
      var c :| c in a && c.kind == kind;
      var i :| 0 <= i < |a| && a[i] == c;
      assert b[i] in b;
    }
  }

  /**
   For a suite whose cases carry no variant index: after one pass the fingerprints are unique, and a second
   pass changes nothing, neither the cases with their key order nor the counts, exactly if no two groups of
   duplicates are confusable.
   */
  lemma EnrichIsIdempotentExactly(cite: Cite, digest: Parts -> string, dictOf: AsDict, cases: seq<Case>)
    requires Injective(digest) && forall c <- cases :: Untagged(dictOf, c) && Distinct(c.keys)
    requires Enriched(cite, digest, dictOf, cases).Some?
    ensures var once := Enriched(cite, digest, dictOf, cases).value;
      && (Unique(once.cases) <==> GroupsStayApart(dictOf, PreparedAll(cite, digest, cases)))
      && (Enriched(cite, digest, dictOf, once.cases) == Some(once)
          <==> GroupsStayApart(dictOf, PreparedAll(cite, digest, cases)))
  {
    var prepared := PreparedAll(cite, digest, cases);
    var after := Decollided(dictOf, digest, prepared);
    PreparedStays(cite, digest, dictOf, cases);
    LeftCasesArePrepared(cite, digest, dictOf, cases);
    PreparedIsUntagged(cite, digest, dictOf, cases);
    UniqueAfterOnePass(dictOf, digest, prepared);
    ReorderingKeepsUnique(after);
    ReorderingKeepsCounts(after);
    SecondPass(cite, digest, dictOf, ReorderedAll(after));
  }

  lemma PreparedIsUntagged(cite: Cite, digest: Parts -> string, dictOf: AsDict, cases: seq<Case>)
    requires forall c <- cases :: Untagged(dictOf, c)
    ensures forall c <- PreparedAll(cite, digest, cases) :: Untagged(dictOf, c)
  {
    var prepared := PreparedAll(cite, digest, cases);
    forall c | c in prepared ensures Untagged(dictOf, c) {
      var i :| 0 <= i < |prepared| && prepared[i] == c;
      assert cases[i] in cases;
    }
  }

  /** A pass over cases as a pass leaves them changes nothing exactly if their fingerprints are unique. */
  lemma SecondPass(cite: Cite, digest: Parts -> string, dictOf: AsDict, left: seq<Case>)
    requires Injective(digest) && Fingerprinted(digest, left)
    requires PreparedAll(cite, digest, left) == left && ReorderedAll(left) == left
    ensures Enriched(cite, digest, dictOf, left) == Some(Suite(left, |left|, KindCounts(left))) <==> Unique(left)
  {
    if Unique(left) {
      NoDuplicatesNoChange(dictOf, digest, left);
    } else if CanTag(dictOf, left) {
      SecondPassChanges(dictOf, digest, left);
    }
  }

  lemma SecondPassChanges(dictOf: AsDict, digest: Parts -> string, cases: seq<Case>)
    requires Injective(digest) && Fingerprinted(digest, cases) && CanTag(dictOf, cases) && !Unique(cases)
    ensures ReorderedAll(Decollided(dictOf, digest, cases)) != cases
  {
    var k := DuplicatesChange(dictOf, digest, cases);
    assert Arguments(ReorderedAll(Decollided(dictOf, digest, cases))[k]) != Arguments(cases[k]);
  }

  // ---------------------------------------------------------------- what a pass does to each case

  /** The cases before place `k` that have the same parts, as far as the digest can tell. */
  function TwinsBefore(digest: Parts -> string, cases: seq<Case>, i: nat, k: nat): set<nat>
    requires i < |cases| && k <= |cases|
  {
    set j: nat | j < k && digest(PartsOf(cases[j])) == digest(PartsOf(cases[i]))
  }

  /** The arguments as a dictionary: nothing and every false value read as the empty one. */
  predicate ReadAs(dictOf: AsDict, arguments: Option<Json>, m: map<string, Json>) {
    match arguments
    case None => m == map[]
    case Some(Obj(fields)) => m == fields
    case Some(j) => if Truthy(j) then dictOf(j) == Some(m) else m == map[]
  }

  /** The kind that an attack type has. */
  predicate IsKind(attackType: string, kind: string) {
    if |attackType| >= 7 && attackType[..7] == "benign_" then kind == "benign_control"
    else if attackType == "audit_decision_coverage" || attackType == "audit_hash_chain"
         || attackType == "audit_required_red_tool" then kind == "assurance_check"
    else kind == "attack_case"
  }

  /** Only these five fields can change: kind and documents are derived anew, and the fingerprint fits all parts. */
  predicate Renewed(cite: Cite, digest: Parts -> string, before: Case, after: Case) {
    && after == before.(kind := after.kind, documents := after.documents, fingerprint := after.fingerprint,
                        arguments := after.arguments, keys := after.keys)
    && IsKind(before.attackType, after.kind) && after.documents == cite(before.policyRefs, before.dimension)
    && after.fingerprint == digest(PartsOf(after))
  }

  /** A case without a twin keeps its arguments; one with a twin gets its number among them as variant index. */
  ghost predicate ArgumentsAfter(dictOf: AsDict, digest: Parts -> string, cases: seq<Case>, i: nat, after: Case)
    requires i < |cases|
  {
    if TwinsBefore(digest, cases, i, |cases|) == {i} then after.arguments == cases[i].arguments
    else exists m :: ReadAs(dictOf, cases[i].arguments, m)
           && after.arguments == Some(Obj(m["variant_index" := Num(|TwinsBefore(digest, cases, i, i)| + 1)]))
  }

  /** What a pass does to each case. */
  lemma PassExactly(cite: Cite, digest: Parts -> string, dictOf: AsDict, cases: seq<Case>, i: nat)
    requires Enriched(cite, digest, dictOf, cases).Some? && i < |cases| && Distinct(cases[i].keys)
    ensures var suite := Enriched(cite, digest, dictOf, cases).value.cases;
      && |suite| == |cases| && Renewed(cite, digest, cases[i], suite[i])
      && ArgumentsAfter(dictOf, digest, cases, i, suite[i])
      && KeysAfter(cases[i].keys, suite[i].keys, TwinsBefore(digest, cases, i, |cases|) != {i})
  {
    var prepared := PreparedAll(cite, digest, cases);
    TwinsAreIndices(cite, digest, cases, i, |cases|);
    TwinsAreIndices(cite, digest, cases, i, i);
    assert prepared[..|cases|] == prepared;
    AloneMeansOne(TwinsBefore(digest, cases, i, |cases|), i);
    KeysOfPrepared(cite, digest, cases[i]);
    PlacePass(cite, digest, dictOf, cases, i);
    ReorderedKeys(After(dictOf, digest, prepared, i).keys);
  }

  /** The case before its keys are reordered. */
  lemma PlacePass(cite: Cite, digest: Parts -> string, dictOf: AsDict, cases: seq<Case>, i: nat)
    requires i < |cases| && CanTag(dictOf, PreparedAll(cite, digest, cases))
    ensures var prepared := PreparedAll(cite, digest, cases);
      var after := After(dictOf, digest, prepared, i);
      && Renewed(cite, digest, cases[i], after)
      && (if !Duplicate(prepared, i) then
            after.arguments == cases[i].arguments && after.keys == Prepared(cite, digest, cases[i]).keys
          else
            && (exists m :: ReadAs(dictOf, cases[i].arguments, m)
                  && after.arguments == Some(Obj(m["variant_index" := Num(Position(prepared, i))])))
            && after.keys == WithKey(Prepared(cite, digest, cases[i]).keys, "input_payload"))
  {
    var prepared := PreparedAll(cite, digest, cases);
    if Duplicate(prepared, i) {
      assert Objectified(dictOf, prepared[i]).Some?;
      TaggedIsRenewed(cite, digest, dictOf, cases[i], Position(prepared, i));
    }
  }

  ghost predicate KeysAfter(before: seq<string>, after: seq<string>, tagged: bool) {
    && Distinct(after)
    && forall k :: k in after <==>
         k in before || k in {"case_kind", "source_documents", "fingerprint"} || (tagged && k == "input_payload")
  }

  lemma ReorderedKeys(keys: seq<string>)
    requires Distinct(keys)
    ensures Distinct(Reordered(keys)) && forall k :: k in Reordered(keys) <==> k in keys
  {
    ReorderingFacts(keys);
  }

  lemma WithKeyFacts(keys: seq<string>, key: string)
    requires Distinct(keys)
    ensures Distinct(WithKey(keys, key)) && forall k :: k in WithKey(keys, key) <==> k in keys || k == key
  {
  }

  lemma KeysOfPrepared(cite: Cite, digest: Parts -> string, c: Case)
    requires Distinct(c.keys)
    ensures KeysAfter(c.keys, Prepared(cite, digest, c).keys, false)
    ensures KeysAfter(c.keys, WithKey(Prepared(cite, digest, c).keys, "input_payload"), true)
  {
    WithKeyFacts(c.keys, "case_kind");
    WithKeyFacts(WithKey(c.keys, "case_kind"), "source_documents");
    WithKeyFacts(WithKey(WithKey(c.keys, "case_kind"), "source_documents"), "fingerprint");
    WithKeyFacts(Prepared(cite, digest, c).keys, "input_payload");
  }

  lemma TaggedIsRenewed(cite: Cite, digest: Parts -> string, dictOf: AsDict, c: Case, position: int)
    requires Objectified(dictOf, Prepared(cite, digest, c)).Some?
    ensures var tagged := Tagged(dictOf, digest, Prepared(cite, digest, c), position);
      && Renewed(cite, digest, c, tagged)
      && (exists m ::
            ReadAs(dictOf, c.arguments, m)
            && tagged.arguments == Some(Obj(m["variant_index" := Num(position)])))
      && tagged.keys == WithKey(Prepared(cite, digest, c).keys, "input_payload")
  {
    assert ReadAs(dictOf, c.arguments, Objectified(dictOf, Prepared(cite, digest, c)).value);
  }

  lemma TwinsAreIndices(cite: Cite, digest: Parts -> string, cases: seq<Case>, i: nat, k: nat)
    requires i < |cases| && k <= |cases|
    ensures var prepared := PreparedAll(cite, digest, cases);
      |Indices(prepared[..k], prepared[i].fingerprint)| == |TwinsBefore(digest, cases, i, k)|
  {
    var prepared := PreparedAll(cite, digest, cases);
    IndicesAreWith(prepared[..k], prepared[i].fingerprint);
    assert With(prepared[..k], prepared[i].fingerprint) == TwinsBefore(digest, cases, i, k);
  }

  function With(cases: seq<Case>, f: string): set<nat> {
    set j: nat | j < |cases| && cases[j].fingerprint == f
  }

  lemma {:induction false} IndicesAreWith(cases: seq<Case>, f: string)
    ensures |Indices(cases, f)| == |With(cases, f)|
  {
    if cases == [] {
    } else {
      var n := |cases| - 1;
      IndicesAreWith(cases[..n], f);
      OneMorePlace(With(cases[..n], f), With(cases, f), n, cases[n].fingerprint == f);
    }
  }

  lemma AloneMeansOne(twins: set<nat>, i: nat)
    requires i in twins
    ensures |twins| > 1 <==> twins != {i}
  {
    if twins != {i} {
      assert |twins - {i}| > 0;
    }
  }

  /** What a pass reports: the number of cases, and of each kind as many as there are. */
  lemma CountsAreExact(cite: Cite, digest: Parts -> string, dictOf: AsDict, cases: seq<Case>)
    requires Enriched(cite, digest, dictOf, cases).Some?
    ensures var suite := Enriched(cite, digest, dictOf, cases).value;
      && suite.total == |cases| == |suite.cases|
      && (forall kind <- suite.kinds :: suite.kinds[kind] == CountKind(suite.cases, kind) && suite.kinds[kind] > 0)
      && (forall i :: 0 <= i < |cases| ==>
            suite.cases[i].kind == DeriveKind(cases[i].attackType) && suite.cases[i].kind in suite.kinds)
  {
    var after := Decollided(dictOf, digest, PreparedAll(cite, digest, cases));
    ReorderingKeepsCounts(after);
    KindCountsExact(ReorderedAll(after));
    forall i | 0 <= i < |after| ensures after[i].kind == DeriveKind(cases[i].attackType) {
      KindAfter(cite, digest, dictOf, cases, i);
    }
  }

  lemma KindAfter(cite: Cite, digest: Parts -> string, dictOf: AsDict, cases: seq<Case>, i: nat)
    requires i < |cases|
    ensures Decollided(dictOf, digest, PreparedAll(cite, digest, cases))[i].kind == DeriveKind(cases[i].attackType)
  {
  }

  lemma KindCountsExact(cases: seq<Case>)
    ensures forall kind <- KindCounts(cases) ::
      KindCounts(cases)[kind] == CountKind(cases, kind) && CountKind(cases, kind) > 0
    ensures forall i :: 0 <= i < |cases| ==> cases[i].kind in KindCounts(cases)
  {
    forall kind | kind in KindCounts(cases) ensures CountKind(cases, kind) > 0 {
      var c :| c in cases && c.kind == kind;
      SomeCounts(cases, c);
    }
    forall i | 0 <= i < |cases| ensures cases[i].kind in KindCounts(cases) {
      assert cases[i] in cases;
    }
  }

  lemma {:induction false} SomeCounts(cases: seq<Case>, c: Case)
    requires c in cases
    ensures CountKind(cases, c.kind) > 0
  {
    var n := |cases| - 1;
    if cases[n] == c {
    } else {
      assert cases == cases[..n] + [cases[n]];
      SomeCounts(cases[..n], c);
    }
  }

  /** Two cases without arguments and two with null arguments: each pair is told apart, the pairs are not. */
  lemma NullAndEmptyArgumentsCollide(cite: Cite, digest: Parts -> string, dictOf: AsDict, c: Case)
    requires Injective(digest) && Distinct(c.keys)
    ensures var empty, absent := c.(arguments := Some(Obj(map[]))), c.(arguments := Some(Null));
      var r := Enriched(cite, digest, dictOf, [empty, empty, absent, absent]);
      r.Some? && !Unique(r.value.cases) && Enriched(cite, digest, dictOf, r.value.cases) != r
  {
    var empty, absent := c.(arguments := Some(Obj(map[]))), c.(arguments := Some(Null));
    var cases := [empty, empty, absent, absent];
    var prepared := PreparedAll(cite, digest, cases);
    assert forall x <- cases :: Untagged(dictOf, x) && Objectified(dictOf, x) == Some(map[]);
    forall i | 0 <= i < |prepared| ensures Objectified(dictOf, prepared[i]).Some? {
      assert cases[i] in cases;
    }
    PartnersAreDuplicates(prepared, 0, 1);
    PartnersAreDuplicates(prepared, 2, 3);
    assert PartsOf(empty) != PartsOf(absent);
    assert PartsOf(prepared[0]) == PartsOf(empty) && PartsOf(prepared[2]) == PartsOf(absent);
    assert Confusable(dictOf, prepared, 0, 2);
    EnrichIsIdempotentExactly(cite, digest, dictOf, cases);
  }

  // ---------------------------------------------------------------- the code

  /** The loop that collects the indices by fingerprint; `order` is the order in which keys were added. */
  method Groups(cases: array<Case>) returns (groups: map<string, seq<nat>>, order: seq<string>)
    ensures forall f :: f in order <==> f in groups
    ensures forall f :: f in groups <==> Indices(cases[..], f) != []
    ensures forall f <- groups :: groups[f] == Indices(cases[..], f)
    ensures Distinct(order)
  {
    groups, order := map[], [];
    for i := 0 to cases.Length
      invariant forall f :: f in order <==> f in groups
      invariant forall f :: f in groups <==> Indices(cases[..i], f) != []
      invariant forall f <- groups :: groups[f] == Indices(cases[..i], f)
      invariant Distinct(order)
    {
      var f := cases[i].fingerprint;
      assert cases[..i + 1] == cases[..i] + [cases[i]];
      OneMoreIndex(cases[..i], cases[i]);
      if f !in groups {
        groups, order := groups[f := []], order + [f];
      }
      groups := groups[f := groups[f] + [i]];
    }
    assert cases[..cases.Length] == cases[..];
  }

  lemma OneMoreIndex(cases: seq<Case>, c: Case)
    ensures forall f :: Indices(cases + [c], f) == Indices(cases, f) + if c.fingerprint == f then [|cases|] else []
  {
    assert (cases + [c])[..|cases|] == cases;
  }

  /** Rewrites the duplicates in place; false where the source raises. */
  method Decollide(dictOf: AsDict, digest: Parts -> string, cases: array<Case>) returns (ok: bool, tagged: nat)
    modifies cases
    ensures ok <==> CanTag(dictOf, old(cases[..]))
    ensures ok ==> cases[..] == Decollided(dictOf, digest, old(cases[..]))
  {
    ghost var was := cases[..];
    var groups, order := Groups(cases);
    tagged := 0;
    for g := 0 to |order|
      invariant forall i :: 0 <= i < cases.Length ==>
        cases[i] == if was[i].fingerprint in order[..g] then After(dictOf, digest, was, i) else was[i]
      invariant forall i :: 0 <= i < cases.Length && was[i].fingerprint in order[..g] && Duplicate(was, i) ==>
        Objectified(dictOf, was[i]).Some?
    {
      var f := order[g];
      var members := groups[f];
      IndicesFacts(was, f);
      assert order[..g + 1] == order[..g] + [f];
      assert f !in order[..g];
      if |members| > 1 {
        ok := TagGroup(dictOf, digest, cases, was, f, members);
        if !ok {
          return;
        }
        tagged := tagged + |members|;
      }
    }
    forall i | 0 <= i < cases.Length ensures was[i].fingerprint in order {
      EveryCaseIsListed(was, i);
    }
    assert order[..|order|] == order;
    ok := true;
  }

  /** One group: its members, in order, are numbered from 1. */
  method TagGroup(dictOf: AsDict, digest: Parts -> string, cases: array<Case>, ghost was: seq<Case>, f: string,
                  members: seq<nat>)
    returns (ok: bool)
    requires |was| == cases.Length && members == Indices(was, f) && |members| > 1
    requires forall i :: 0 <= i < |was| && was[i].fingerprint == f ==> cases[i] == was[i]
    modifies cases
    ensures ok <==> forall i :: 0 <= i < |was| && was[i].fingerprint == f ==> Objectified(dictOf, was[i]).Some?
    ensures forall i :: 0 <= i < |was| && was[i].fingerprint != f ==> cases[i] == old(cases[i])
    ensures ok ==> forall i :: 0 <= i < |was| && was[i].fingerprint == f ==> cases[i] == After(dictOf, digest, was, i)
  {
    IndicesFacts(was, f);
    MembersAreDistinct(was, f);
    ghost var start := cases[..];
    ghost var k;
    ok, k := NumberMembers(dictOf, digest, cases, members);
    forall i | 0 <= i < |was|
      ensures was[i].fingerprint != f ==> cases[i] == start[i]
      ensures ok && was[i].fingerprint == f ==> cases[i] == After(dictOf, digest, was, i)
    {
      NumberedAt(dictOf, digest, start, members, k, i);
      if was[i].fingerprint == f {
        EveryCaseIsListed(was, i);
        assert members[Position(was, i) - 1] == i;
      }
    }
    forall i | 0 <= i < |was| && was[i].fingerprint == f && ok ensures Objectified(dictOf, was[i]).Some? {
      EveryCaseIsListed(was, i);
      assert members[Position(was, i) - 1] == i;
    }
  }

  /** The cases after the first `k` members of a group have been numbered. */
  function Numbered(dictOf: AsDict, digest: Parts -> string, cases: seq<Case>, members: seq<nat>,
                    k: nat): (r: seq<Case>)
    requires k <= |members| && forall m :: 0 <= m < |members| ==> members[m] < |cases|
    ensures |r| == |cases|
  {
    if k == 0 then cases
    else
      var i := members[k - 1];
      Numbered(dictOf, digest, cases, members, k - 1)[i := Tagged(dictOf, digest, cases[i], k)]
  }

  lemma {:induction false} NumberedAt(dictOf: AsDict, digest: Parts -> string, cases: seq<Case>, members: seq<nat>,
                                      k: nat, i: nat)
    requires k <= |members| && i < |cases| && forall m :: 0 <= m < |members| ==> members[m] < |cases|
    requires forall a, b :: 0 <= a < b < |members| ==> members[a] != members[b]
    ensures i !in members[..k] ==> Numbered(dictOf, digest, cases, members, k)[i] == cases[i]
    ensures forall m :: 0 <= m < k && members[m] == i ==>
      Numbered(dictOf, digest, cases, members, k)[i] == Tagged(dictOf, digest, cases[i], m + 1)
  {
    if k == 0 {
    } else {
      NumberedAt(dictOf, digest, cases, members, k - 1, i);
      assert members[..k] == members[..k - 1] + [members[k - 1]];
      forall m | 0 <= m < k && members[m] == i
        ensures Numbered(dictOf, digest, cases, members, k)[i] == Tagged(dictOf, digest, cases[i], m + 1)
      {
        assert m < k - 1 ==> members[m] != members[k - 1];
      }
    }
  }

  method NumberMembers(dictOf: AsDict, digest: Parts -> string, cases: array<Case>, members: seq<nat>)
    returns (ok: bool, ghost done: nat)
    requires forall m :: 0 <= m < |members| ==> members[m] < cases.Length
    requires forall a, b :: 0 <= a < b < |members| ==> members[a] != members[b]
    modifies cases
    ensures ok <==> CanTagFirst(dictOf, old(cases[..]), members, |members|)
    ensures done <= |members| && (ok ==> done == |members|)
    ensures cases[..] == Numbered(dictOf, digest, old(cases[..]), members, done)
  {
    ghost var start := cases[..];
    for k := 0 to |members|
      invariant cases[..] == Numbered(dictOf, digest, start, members, k)
      invariant CanTagFirst(dictOf, start, members, k)
    {
      NextNumbered(dictOf, digest, start, members, k);
      var tagged := TagInPlace(dictOf, digest, cases, members[k], k + 1);
      if !tagged {
        return false, k;
      }
    }
    return true, |members|;
  }

  predicate CanTagFirst(dictOf: AsDict, cases: seq<Case>, members: seq<nat>, k: nat)
    requires k <= |members| && forall m :: 0 <= m < |members| ==> members[m] < |cases|
  {
    forall m :: 0 <= m < k ==> Objectified(dictOf, cases[members[m]]).Some?
  }

  method TagInPlace(dictOf: AsDict, digest: Parts -> string, cases: array<Case>, i: nat, position: int)
    returns (ok: bool)
    requires i < cases.Length
    modifies cases
    ensures ok <==> Objectified(dictOf, old(cases[..])[i]).Some?
    ensures cases[..]
      == if ok then old(cases[..])[i := Tagged(dictOf, digest, old(cases[..])[i], position)] else old(cases[..])
  {
    ok := Objectified(dictOf, cases[i]).Some?;
    if ok {
      cases[i] := Tagged(dictOf, digest, cases[i], position);
    }
  }

  lemma NextNumbered(dictOf: AsDict, digest: Parts -> string, cases: seq<Case>, members: seq<nat>, k: nat)
    requires k < |members| && forall m :: 0 <= m < |members| ==> members[m] < |cases|
    requires forall a, b :: 0 <= a < b < |members| ==> members[a] != members[b]
    ensures var before, i := Numbered(dictOf, digest, cases, members, k), members[k];
      before[i] == cases[i]
      && Numbered(dictOf, digest, cases, members, k + 1) == before[i := Tagged(dictOf, digest, before[i], k + 1)]
  {
    assert members[k] !in members[..k];
    NumberedAt(dictOf, digest, cases, members, k, members[k]);
  }

  lemma MembersAreDistinct(cases: seq<Case>, f: string)
    ensures forall a, b :: 0 <= a < b < |Indices(cases, f)| ==> Indices(cases, f)[a] != Indices(cases, f)[b]
  {
    IndicesFacts(cases, f);
    var all := Indices(cases, f);
    forall a, b | 0 <= a < b < |all| ensures all[a] != all[b] {
      assert Position(cases, all[a]) == a + 1 && Position(cases, all[b]) == b + 1;
    }
  }

  /** `enrich`: prepare, tell duplicates apart, reorder the keys, count. */
  method Enrich(cite: Cite, digest: Parts -> string, dictOf: AsDict, cases: seq<Case>) returns (r: Option<Suite>)
    ensures r == Enriched(cite, digest, dictOf, cases)
  {
    var prepared: seq<Case> := [];
    for i := 0 to |cases|
      invariant |prepared| == i
      invariant forall k :: 0 <= k < i ==> prepared[k] == Prepared(cite, digest, cases[k])
    {
      prepared := prepared + [Prepared(cite, digest, cases[i])];
    }
    assert prepared == PreparedAll(cite, digest, cases);
    var work := new Case[|prepared|](i requires 0 <= i < |prepared| => prepared[i]);
    assert work[..] == prepared;
    var ok, _ := Decollide(dictOf, digest, work);
    if !ok {
      return None;
    }
    var kinds := CountKinds(work[..]);
    r := Some(Suite(ReorderedAll(work[..]), work.Length, kinds));
  }

  method CountKinds(cases: seq<Case>) returns (kinds: map<string, nat>)
    ensures kinds == KindCounts(cases)
  {
    kinds := map[];
    for i := 0 to |cases|
      invariant CountsOf(kinds, cases[..i])
    {
      assert cases[..i + 1] == cases[..i] + [cases[i]];
      CountsOfStep(kinds, cases[..i], cases[i]);
      var kind := cases[i].kind;
      kinds := kinds[kind := (if kind in kinds then kinds[kind] else 0) + 1];
    }
    assert cases[..|cases|] == cases;
    CountsOfAll(kinds, cases);
  }

  predicate CountsOf(kinds: map<string, nat>, cases: seq<Case>) {
    && (forall kind <- kinds :: kinds[kind] == CountKind(cases, kind))
    && (forall kind <- kinds :: exists c <- cases :: c.kind == kind)
    && (forall c <- cases :: c.kind in kinds)
  }

  lemma CountsOfAll(kinds: map<string, nat>, cases: seq<Case>)
    requires CountsOf(kinds, cases)
    ensures kinds == KindCounts(cases)
  {
    assert kinds.Keys == KindCounts(cases).Keys;
  }

  lemma CountsOfStep(kinds: map<string, nat>, cases: seq<Case>, c: Case)
    requires CountsOf(kinds, cases)
    ensures CountsOf(kinds[c.kind := (if c.kind in kinds then kinds[c.kind] else 0) + 1], cases + [c])
  {
    var updated := kinds[c.kind := (if c.kind in kinds then kinds[c.kind] else 0) + 1];
    if c.kind !in kinds {
      NoneCounts(cases, c.kind);
    }
    forall kind | kind in updated ensures updated[kind] == CountKind(cases + [c], kind) {
      CountKindStep(cases, c, kind);
    }
    forall kind | kind in updated ensures exists d <- cases + [c] :: d.kind == kind {
      if kind == c.kind {
        assert c in cases + [c];
      } else {
        var d :| d in cases && d.kind == kind;
        assert d in cases + [c];
      }
    }
  }

  lemma CountKindStep(cases: seq<Case>, c: Case, kind: string)
    ensures CountKind(cases + [c], kind) == CountKind(cases, kind) + if kind == c.kind then 1 else 0
  {
    assert (cases + [c])[..|cases|] == cases;
  }

  lemma {:induction false} NoneCounts(cases: seq<Case>, kind: string)
    ensures (forall c <- cases :: c.kind != kind) ==> CountKind(cases, kind) == 0
  {
    if cases == [] {
    } else {
      NoneCounts(cases[..|cases| - 1], kind);
      assert cases[|cases| - 1] in cases;
    }
  }
}
