/**
 The recursive public projection of scripts/collect_identity_undo_evidence.py and the secret scanner
 of scripts/verify_identity_undo_evidence.py that later reads what it produced.
 */
module PublicProjection {
  import opened Common
  import opened JsonValues

  // ---------------------------------------------------------------- labels

  predicate Keeps(c: char) {
    'a' <= c <= 'z' || '0' <= c <= '9'
  }

  function Alphanumeric(s: string): string {
    if s == [] then [] else (if Keeps(s[0]) then [s[0]] else []) + Alphanumeric(s[1..])
  }

  /** Lower-cased, then only `[a-z0-9]`; both programs normalize labels this way. */
  function Normalized(lower: string -> string, name: string): string {
    Alphanumeric(lower(name))
  }

  predicate StartsWith(s: string, t: string) {
    t <= s
  }

  predicate EndsWith(s: string, t: string) {
    |t| <= |s| && s[|s| - |t|..] == t
  }

  predicate Contains(s: string, t: string) {
    StartsWith(s, t) || (s != [] && Contains(s[1..], t))
  }

  const SENSITIVE_PARTS: set<string> := {
    "authorization", "approvaltoken", "bearer", "clientsecret", "cookie", "databaseurl", "dsn", "kek",
    "password", "privatekey", "recovery", "secret", "session", "token", "wrappeddek"
  }

  const DROPPED_KEYS: set<string> := {"record_hash", "signature", "signature_algorithm", "signature_key_id"}

  const PUBLIC_SUFFIXES: seq<string> := [
    "file", "path", "id", "sha256", "digest", "present", "ciphertext", "nonce", "wrapped"
  ]

  predicate IsSensitiveKey(lower: string -> string, key: string) {
    exists part <- SENSITIVE_PARTS :: Contains(Normalized(lower, key), part)
  }

  datatype Kind = NotSecret | Password | ClientSecret | DatabaseDsn | KekMaterial | RecoveryPlaintext | PrivateKey

  function SecretLabelKind(lower: string -> string, name: string): Kind {
    var n := Normalized(lower, name);
    if exists suffix <- PUBLIC_SUFFIXES :: EndsWith(n, suffix) then NotSecret
    else if EndsWith(n, "password") then Password
    else if EndsWith(n, "clientsecret") then ClientSecret
    else if n == "dsn" || n == "databaseurl" || EndsWith(n, "dsn") then DatabaseDsn
    else if Contains(n, "kek") then KekMaterial
    else if n == "recovery" || StartsWith(n, "recoveryplaintext") || StartsWith(n, "recoverymaterial")
         || StartsWith(n, "recoverypayload") || StartsWith(n, "recoverydata") then RecoveryPlaintext
    else if EndsWith(n, "privatekey") then PrivateKey
    else NotSecret
  }

  lemma {:induction false} EndIsContained(s: string, t: string)
    requires EndsWith(s, t)
    ensures Contains(s, t)
  {
    if |s| == |t| {
    } else {
      assert s[1..][|s| - 1 - |t|..] == s[|s| - |t|..];
      EndIsContained(s[1..], t);
    }
  }

  /** The scanner never calls a label secret that the projection would have kept. */
  lemma SecretLabelsAreSensitive(lower: string -> string, name: string)
    requires SecretLabelKind(lower, name) != NotSecret
    ensures IsSensitiveKey(lower, name)
  {
    var n := Normalized(lower, name);
    match SecretLabelKind(lower, name)
    case Password => EndIsSensitive(lower, name, "password");
    case ClientSecret => EndIsSensitive(lower, name, "clientsecret");
    case DatabaseDsn =>
      if EndsWith(n, "dsn") {
        EndIsSensitive(lower, name, "dsn");
      } else {
        EndIsSensitive(lower, name, "databaseurl");
      }
    case KekMaterial => PartIsSensitive(lower, name, "kek");
    case RecoveryPlaintext =>
      RecoveryPrefix(n);
      PartIsSensitive(lower, name, "recovery");
    case PrivateKey => EndIsSensitive(lower, name, "privatekey");
  }

  lemma PartIsSensitive(lower: string -> string, name: string, part: string)
    requires part in SENSITIVE_PARTS && Contains(Normalized(lower, name), part)
    ensures IsSensitiveKey(lower, name)
  {
  }

  lemma RecoveryPrefix(n: string)
    requires || n == "recovery" || StartsWith(n, "recoveryplaintext") || StartsWith(n, "recoverymaterial")
             || StartsWith(n, "recoverypayload") || StartsWith(n, "recoverydata")
    ensures Contains(n, "recovery")
  {
    assert "recoveryplaintext"[..8] == "recovery" && "recoverymaterial"[..8] == "recovery";
    assert "recoverypayload"[..8] == "recovery" && "recoverydata"[..8] == "recovery";
    assert StartsWith(n, "recovery");
  }

  lemma EndIsSensitive(lower: string -> string, name: string, part: string)
    requires part in SENSITIVE_PARTS && EndsWith(Normalized(lower, name), part)
    ensures IsSensitiveKey(lower, name)
  {
    EndIsContained(Normalized(lower, name), part);
  }

  // ---------------------------------------------------------------- projection

  predicate KeptKey(lower: string -> string, key: string) {
    !IsSensitiveKey(lower, key) && key !in DROPPED_KEYS
  }

  /** `flagged` is the verdict of the text scanner on a string value. */
  function Project(lower: string -> string, flagged: string -> bool, j: Json): Json
    decreases j
  {
    match j
    case Obj(m) => Obj(map k <- m | KeptKey(lower, k) :: Project(lower, flagged, m[k]))
    case Arr(items) => Arr(seq(|items|, i requires 0 <= i < |items| => Project(lower, flagged, items[i])))
    case Str(s) => if flagged(s) then Str("[excluded]") else j
    case _ => j
  }

  lemma {:induction false} ProjectionIdempotent(lower: string -> string, flagged: string -> bool, j: Json)
    ensures Project(lower, flagged, Project(lower, flagged, j)) == Project(lower, flagged, j)
  {
    match j
    case Obj(m) =>
      forall k | k in m && KeptKey(lower, k)
        ensures Project(lower, flagged, Project(lower, flagged, m[k])) == Project(lower, flagged, m[k])
      {
        ProjectionIdempotent(lower, flagged, m[k]);
      }
    case Arr(items) =>
      forall i | 0 <= i < |items|
        ensures Project(lower, flagged, Project(lower, flagged, items[i])) == Project(lower, flagged, items[i])
      {
        ProjectionIdempotent(lower, flagged, items[i]);
      }
    case _ =>
  }

  // ---------------------------------------------------------------- scanning

  datatype Finding = Keyring(path: seq<Place>) | NotRedacted(path: seq<Place>, kind: Kind)

  predicate Redacted(redactedText: string -> bool, j: Json) {
    j.Null? || (j.Str? && redactedText(j.s))
  }

  /** The entry of an object that the scanner reads as its `keys`: where labels collide, the last one in key order. */
  predicate IsKeysEntry(lower: string -> string, m: map<string, Json>, k: string) {
    && k in m && Normalized(lower, k) == "keys"
    && forall other <- m :: Normalized(lower, other) == "keys" ==> LexLe(other, k)
  }

  /** An object with an `active` entry beside a non-empty object of `keys`. */
  predicate KeyringShape(lower: string -> string, m: map<string, Json>) {
    && (exists a <- m :: Normalized(lower, a) == "active")
    && (exists k <- m :: IsKeysEntry(lower, m, k) && m[k].Obj? && m[k].fields != map[])
  }

  function Findings(lower: string -> string, redactedText: string -> bool, j: Json, path: seq<Place>): set<Finding>
    decreases j
  {
    match j
    case Obj(m) =>
      (if KeyringShape(lower, m) then {Keyring(path)} else {})
      + (set k | k in m && SecretLabelKind(lower, k) != NotSecret && !Redacted(redactedText, m[k])
           :: NotRedacted(path + [Key(k)], SecretLabelKind(lower, k)))
      + (set k, f | k in m && f in Findings(lower, redactedText, m[k], path + [Key(k)]) :: f)
    case Arr(items) =>
      set i: nat, f | i < |items| && f in Findings(lower, redactedText, items[i], path + [Index(i)]) :: f
    case _ => {}
  }

  predicate HasKeyring(lower: string -> string, j: Json)
    decreases j
  {
    match j
    case Obj(m) => KeyringShape(lower, m) || exists k <- m :: HasKeyring(lower, m[k])
    case Arr(items) => exists i: nat | i < |items| :: HasKeyring(lower, items[i])
    case _ => false
  }

  predicate NoSecretLabel(lower: string -> string, j: Json)
    decreases j
  {
    match j
    case Obj(m) => forall k <- m :: SecretLabelKind(lower, k) == NotSecret && NoSecretLabel(lower, m[k])
    case Arr(items) => forall i: nat | i < |items| :: NoSecretLabel(lower, items[i])
    case _ => true
  }

  lemma {:induction false} ProjectionHasNoSecretLabel(lower: string -> string, flagged: string -> bool, j: Json)
    ensures NoSecretLabel(lower, Project(lower, flagged, j))
  {
    match j
    case Obj(m) =>
      forall k | k in m && KeptKey(lower, k)
        ensures SecretLabelKind(lower, k) == NotSecret && NoSecretLabel(lower, Project(lower, flagged, m[k]))
      {
        if SecretLabelKind(lower, k) != NotSecret {
          SecretLabelsAreSensitive(lower, k);
        }
        ProjectionHasNoSecretLabel(lower, flagged, m[k]);
      }
    case Arr(items) =>
      forall i | 0 <= i < |items| ensures NoSecretLabel(lower, Project(lower, flagged, items[i])) {
        ProjectionHasNoSecretLabel(lower, flagged, items[i]);
      }
    case _ =>
  }

  /** Without secret labels the scanner reports nothing but keyring shapes. */
  lemma {:induction false} OnlyKeyringsFound(lower: string -> string, redactedText: string -> bool, j: Json,
                                             path: seq<Place>)
    requires NoSecretLabel(lower, j)
    ensures forall f <- Findings(lower, redactedText, j, path) :: f.Keyring?
  {
    match j
    case Obj(m) =>
      forall k | k in m ensures forall f <- Findings(lower, redactedText, m[k], path + [Key(k)]) :: f.Keyring? {
        OnlyKeyringsFound(lower, redactedText, m[k], path + [Key(k)]);
      }
    case Arr(items) =>
      forall i: nat | i < |items|
        ensures forall f <- Findings(lower, redactedText, items[i], path + [Index(i)]) :: f.Keyring?
      {
        OnlyKeyringsFound(lower, redactedText, items[i], path + [Index(i)]);
      }
    case _ =>
  }

  /** A keyring shape anywhere in a value is reported. */
  lemma {:induction false} KeyringIsFound(lower: string -> string, redactedText: string -> bool, j: Json,
                                          path: seq<Place>)
    returns (found: Finding)
    requires HasKeyring(lower, j)
    ensures found in Findings(lower, redactedText, j, path)
  {
    match j
    case Obj(m) =>
      if KeyringShape(lower, m) {
        found := Keyring(path);
      } else {
        var k :| k in m && HasKeyring(lower, m[k]);
        found := KeyringIsFound(lower, redactedText, m[k], path + [Key(k)]);
      }
    case Arr(items) =>
      var i: nat :| i < |items| && HasKeyring(lower, items[i]);
      found := KeyringIsFound(lower, redactedText, items[i], path + [Index(i)]);
  }

  /** Each reported keyring is there. */
  lemma {:induction false} FoundKeyringIsThere(lower: string -> string, redactedText: string -> bool, j: Json,
                                               path: seq<Place>, found: Finding)
    requires found in Findings(lower, redactedText, j, path) && found.Keyring?
    ensures HasKeyring(lower, j)
  {
    match j
    case Obj(m) =>
      if !KeyringShape(lower, m) {
        var k :| k in m && found in Findings(lower, redactedText, m[k], path + [Key(k)]);
        FoundKeyringIsThere(lower, redactedText, m[k], path + [Key(k)], found);
      }
    case Arr(items) =>
      var i: nat :| i < |items| && found in Findings(lower, redactedText, items[i], path + [Index(i)]);
      FoundKeyringIsThere(lower, redactedText, items[i], path + [Index(i)], found);
  }

  lemma {:induction false} MissingChar(s: string, t: string, c: char)
    requires c in t && c !in s
    ensures !Contains(s, t)
  {
    if s == [] {
    } else {
      MissingChar(s[1..], t, c);
    }
  }

  lemma {:induction false} TooLong(s: string, t: string)
    requires |s| < |t|
    ensures !Contains(s, t)
  {
    if s == [] {
    } else {
      TooLong(s[1..], t);
    }
  }

  /** The labels of the keyring shape are not sensitive, so the projection keeps them. */
  lemma KeyringLabelsAreKept(lower: string -> string, key: string)
    requires Normalized(lower, key) == "active" || Normalized(lower, key) == "keys"
    ensures !IsSensitiveKey(lower, key)
  {
    var n := Normalized(lower, key);
    forall part | part in SENSITIVE_PARTS ensures !Contains(n, part) {
      if |part| > |n| {
        TooLong(n, part);
      } else if part == "kek" && n == "keys" {
        assert n[2] != part[2] && n[1..] == "eys" && n[1..][0] != part[0] && n[1..][1..] == "ys";
        assert !StartsWith(n, part) && !StartsWith(n[1..], part);
        TooLong("ys", part);
      } else {
        MissingChar(n, part, if part == "bearer" then 'b' else if part == "cookie" || part == "token" then 'o'
                             else if part == "dsn" then 'd' else if part == "kek" then 'k' else 's');
      }
    }
  }

  // ---------------------------------------------------------------- which keyrings survive

  /** The `keys` entry among those that are kept. */
  predicate IsKeptKeysEntry(lower: string -> string, m: map<string, Json>, k: string) {
    && k in m && KeptKey(lower, k) && Normalized(lower, k) == "keys"
    && forall other <- m :: KeptKey(lower, other) && Normalized(lower, other) == "keys" ==> LexLe(other, k)
  }

  predicate HasKeptEntry(lower: string -> string, j: Json) {
    j.Obj? && exists id <- j.fields :: KeptKey(lower, id)
  }

  /** An `active` entry that is kept, beside kept `keys` with an entry that is kept. */
  predicate ShapeThatStays(lower: string -> string, m: map<string, Json>) {
    && (exists a <- m :: Normalized(lower, a) == "active" && KeptKey(lower, a))
    && (exists k <- m :: IsKeptKeysEntry(lower, m, k) && HasKeptEntry(lower, m[k]))
  }

  /** Such a shape at some depth that is reached through kept keys. */
  predicate KeepsKeyring(lower: string -> string, j: Json)
    decreases j
  {
    match j
    case Obj(m) => ShapeThatStays(lower, m) || exists k <- m :: KeptKey(lower, k) && KeepsKeyring(lower, m[k])
    case Arr(items) => exists i: nat | i < |items| :: KeepsKeyring(lower, items[i])
    case _ => false
  }

  function ProjectFields(lower: string -> string, flagged: string -> bool, m: map<string, Json>): (r: map<string, Json>)
    ensures Project(lower, flagged, Obj(m)) == Obj(r)
    ensures forall k :: k in r <==> k in m && KeptKey(lower, k)
    ensures forall k <- r :: r[k] == Project(lower, flagged, m[k])
  {
    map k <- m | KeptKey(lower, k) :: Project(lower, flagged, m[k])
  }

  lemma ObjectStaysNonEmpty(lower: string -> string, flagged: string -> bool, j: Json)
    ensures var public := Project(lower, flagged, j);
      public.Obj? && public.fields != map[] <==> HasKeptEntry(lower, j)
  {
    if j.Obj? {
      var r := ProjectFields(lower, flagged, j.fields);
      if id :| id in j.fields && KeptKey(lower, id) {
        assert id in r;
      }
      if r != map[] {
        assert r.Keys != {};
        var id :| id in r.Keys;
      }
    }
  }

  lemma ShapeSurvivesExactly(lower: string -> string, flagged: string -> bool, m: map<string, Json>)
    ensures KeyringShape(lower, ProjectFields(lower, flagged, m)) <==> ShapeThatStays(lower, m)
  {
    var r := ProjectFields(lower, flagged, m);
    if KeyringShape(lower, r) {
      var k :| k in r && IsKeysEntry(lower, r, k) && r[k].Obj? && r[k].fields != map[];
      ObjectStaysNonEmpty(lower, flagged, m[k]);
      assert IsKeptKeysEntry(lower, m, k);
    }
    if ShapeThatStays(lower, m) {
      var a :| a in m && Normalized(lower, a) == "active" && KeptKey(lower, a);
      var k :| k in m && IsKeptKeysEntry(lower, m, k) && HasKeptEntry(lower, m[k]);
      ObjectStaysNonEmpty(lower, flagged, m[k]);
      assert a in r && IsKeysEntry(lower, r, k);
    }
  }

  /** A projected value holds a keyring shape exactly if the value has one that stays. */
  lemma {:induction false} KeyringSurvivesExactly(lower: string -> string, flagged: string -> bool, j: Json)
    ensures HasKeyring(lower, Project(lower, flagged, j)) <==> KeepsKeyring(lower, j)
    decreases j
  {
    match j
    case Obj(m) =>
      var r := ProjectFields(lower, flagged, m);
      ShapeSurvivesExactly(lower, flagged, m);
      forall k | k in m && KeptKey(lower, k) ensures HasKeyring(lower, r[k]) <==> KeepsKeyring(lower, m[k]) {
        KeyringSurvivesExactly(lower, flagged, m[k]);
      }
      KeyringBelow(lower, r, m);
    case Arr(items) =>
      forall i: nat | i < |items|
        ensures HasKeyring(lower, Project(lower, flagged, items[i])) <==> KeepsKeyring(lower, items[i]) {
        KeyringSurvivesExactly(lower, flagged, items[i]);
      }
      var public := Project(lower, flagged, j);
      assert public.Arr? && |public.items| == |items|;
      if i: nat :| i < |items| && KeepsKeyring(lower, items[i]) {
        assert HasKeyring(lower, public.items[i]);
      }
    case _ =>
  }

  lemma KeyringBelow(lower: string -> string, r: map<string, Json>, m: map<string, Json>)
    requires forall k :: k in r <==> k in m && KeptKey(lower, k)
    requires forall k <- r :: HasKeyring(lower, r[k]) <==> KeepsKeyring(lower, m[k])
    ensures (exists k <- r :: HasKeyring(lower, r[k]))
      <==> exists k <- m :: KeptKey(lower, k) && KeepsKeyring(lower, m[k])
  {
    if k :| k in m && KeptKey(lower, k) && KeepsKeyring(lower, m[k]) {
      assert k in r && HasKeyring(lower, r[k]);
    }
  }

  /**
   Scanning a projected value reports keyring shapes and nothing else, and reports one exactly if the
   value that was projected has a keyring that stays.
   */
  lemma ScanOfProjection(lower: string -> string, flagged: string -> bool, redactedText: string -> bool, j: Json)
    ensures var public := Project(lower, flagged, j);
      && (forall f <- Findings(lower, redactedText, public, []) :: f.Keyring?)
      && (Findings(lower, redactedText, public, []) != {} <==> KeepsKeyring(lower, j))
  {
    ProjectionHasNoSecretLabel(lower, flagged, j);
    KeyringSurvivesExactly(lower, flagged, j);
    var public := Project(lower, flagged, j);
    OnlyKeyringsFound(lower, redactedText, public, []);
    if HasKeyring(lower, public) {
      var found := KeyringIsFound(lower, redactedText, public, []);
    }
    if found :| found in Findings(lower, redactedText, public, []) {
      FoundKeyringIsThere(lower, redactedText, public, [], found);
    }
  }

  /** For example any plain keyring, where lower-casing leaves lower-case labels alone. */
  lemma PlainKeyringIsPublishedAndFound(lower: string -> string, flagged: string -> bool, redactedText: string -> bool,
                                        m: map<string, Json>, keys: map<string, Json>)
    requires lower("active") == "active" && lower("keys") == "keys" && lower("v1") == "v1"
    requires m.Keys == {"active", "keys"} && m["keys"] == Obj(keys) && "v1" in keys
    ensures KeepsKeyring(lower, Obj(m))
    ensures Findings(lower, redactedText, Project(lower, flagged, Obj(m)), []) != {}
  {
    PlainLabelsAreKept(lower);
    PlainShapeStays(lower, m, keys);
    ShapeIsFound(lower, flagged, redactedText, m);
  }

  lemma ShapeIsFound(lower: string -> string, flagged: string -> bool, redactedText: string -> bool,
                     m: map<string, Json>)
    requires ShapeThatStays(lower, m)
    ensures KeepsKeyring(lower, Obj(m)) && Findings(lower, redactedText, Project(lower, flagged, Obj(m)), []) != {}
  {
    ScanOfProjection(lower, flagged, redactedText, Obj(m));
  }

  lemma PlainShapeStays(lower: string -> string, m: map<string, Json>, keys: map<string, Json>)
    requires Normalized(lower, "active") == "active" && Normalized(lower, "keys") == "keys"
    requires KeptKey(lower, "active") && KeptKey(lower, "keys") && KeptKey(lower, "v1")
    requires m.Keys == {"active", "keys"} && m["keys"] == Obj(keys) && "v1" in keys
    ensures ShapeThatStays(lower, m)
  {
    LexTotal("keys", "keys");
    assert "active" in m && "keys" in m;
    assert IsKeptKeysEntry(lower, m, "keys") && HasKeptEntry(lower, m["keys"]);
  }

  lemma PlainLabelsAreKept(lower: string -> string)
    requires lower("active") == "active" && lower("keys") == "keys" && lower("v1") == "v1"
    ensures Normalized(lower, "active") == "active" && Normalized(lower, "keys") == "keys"
    ensures KeptKey(lower, "active") && KeptKey(lower, "keys") && KeptKey(lower, "v1")
  {
    PlainLabel(lower, "active");
    PlainLabel(lower, "keys");
    PlainLabel(lower, "v1");
    KeyringLabelIsKept(lower, "active");
    KeyringLabelIsKept(lower, "keys");
    ShortLabelIsKept(lower, "v1");
    assert "v1" !in DROPPED_KEYS;
  }

  lemma KeyringLabelIsKept(lower: string -> string, key: string)
    requires Normalized(lower, key) == key && key in {"active", "keys"}
    ensures KeptKey(lower, key)
  {
    KeyringLabelsAreKept(lower, key);
  }

  lemma ShortLabelIsKept(lower: string -> string, key: string)
    requires |Normalized(lower, key)| == 2
    ensures !IsSensitiveKey(lower, key)
  {
    forall part | part in SENSITIVE_PARTS ensures !Contains(Normalized(lower, key), part) {
      TooLong(Normalized(lower, key), part);
    }
  }

  lemma PlainLabel(lower: string -> string, s: string)
    requires lower(s) == s && forall c <- s :: Keeps(c)
    ensures Normalized(lower, s) == s
  {
    AllKept(s);
  }

  lemma {:induction false} AllKept(s: string)
    requires forall c <- s :: Keeps(c)
    ensures Alphanumeric(s) == s
  {
    if s == [] {
    } else {
      AllKept(s[1..]);
      assert s == [s[0]] + s[1..];
    }
  }
}
