/**
 What the public projection and the secret scanner do at each place of a value, told by the path that leads there.
 */
module PublicPaths {
  import opened Common
  import opened JsonValues
  import opened PublicProjection

  // ---------------------------------------------------------------- labels

  /** The characters of `t` stand in `s` from some place on. */
  predicate Occurs(s: string, t: string) {
    exists i :: 0 <= i <= |s| - |t| && OccursAt(s, t, i)
  }

  predicate OccursAt(s: string, t: string, i: nat)
    requires i + |t| <= |s|
  {
    forall k :: 0 <= k < |t| ==> s[i + k] == t[k]
  }

  lemma {:induction false} ContainsExactly(s: string, t: string)
    ensures Contains(s, t) <==> Occurs(s, t)
  {
    AtStart(s, t);
    if StartsWith(s, t) {
    } else if s == [] {
    } else {
      ContainsExactly(s[1..], t);
      if i :| 0 <= i <= |s| - 1 - |t| && OccursAt(s[1..], t, i) {
        assert OccursAt(s, t, i + 1);
      }
      if i :| 0 <= i <= |s| - |t| && OccursAt(s, t, i) {
        assert OccursAt(s[1..], t, i - 1);
      }
    }
  }

  lemma AtStart(s: string, t: string)
    ensures |t| <= |s| ==> (OccursAt(s, t, 0) <==> StartsWith(s, t))
  {
    if |t| <= |s| && OccursAt(s, t, 0) {
      assert s[..|t|] == t;
    }
  }

  /** Normalizing keeps letters and digits, each and in order, and nothing else. */
  lemma {:induction false} NormalizedExactly(s: string, t: string)
    ensures Alphanumeric(s + t) == Alphanumeric(s) + Alphanumeric(t)
  {
    if s == [] {
      assert s + t == t;
    } else {
      NormalizedExactly(s[1..], t);
      var kept := if Keeps(s[0]) then [s[0]] else [];
      assert (s + t)[1..] == s[1..] + t;
      assert kept + (Alphanumeric(s[1..]) + Alphanumeric(t)) == kept + Alphanumeric(s[1..]) + Alphanumeric(t);
    }
  }

  lemma OneCharacter(c: char)
    ensures Alphanumeric([c]) == if 'a' <= c <= 'z' || '0' <= c <= '9' then [c] else []
  {
    assert [c][1..] == [];
  }

  /** A key is public if no sensitive part occurs in its label and it is not one of the four chain fields. */
  predicate IsPublic(lower: string -> string, key: string) {
    && key != "record_hash" && key != "signature" && key != "signature_algorithm" && key != "signature_key_id"
    && forall part <- SENSITIVE_PARTS :: !Occurs(Alphanumeric(lower(key)), part)
  }

  lemma PublicExactly(lower: string -> string, key: string)
    ensures KeptKey(lower, key) <==> IsPublic(lower, key)
  {
    forall part <- SENSITIVE_PARTS
      ensures Contains(Normalized(lower, key), part) <==> Occurs(Normalized(lower, key), part)
    {
      ContainsExactly(Normalized(lower, key), part);
    }
  }

  // ---------------------------------------------------------------- projection

  predicate PublicPath(lower: string -> string, path: seq<Place>) {
    forall place <- path :: place.Key? ==> IsPublic(lower, place.key)
  }

  /** What is published for a value: flagged strings are replaced, objects keep their public keys, the rest stays. */
  predicate PublishedAs(lower: string -> string, flagged: string -> bool, j: Json, public: Json) {
    match j
    case Str(s) => public == if flagged(s) then Str("[excluded]") else Str(s)
    case Obj(m) =>
      && public.Obj? && (forall k <- public.fields :: k in m && IsPublic(lower, k))
      && forall k <- m :: IsPublic(lower, k) ==> k in public.fields
    case Arr(items) => public.Arr? && |public.items| == |items|
    case _ => public == j
  }

  /** The projection has exactly the places that are reached through public keys, each published as it should be. */
  lemma {:induction false} PublishedExactly(lower: string -> string, flagged: string -> bool, j: Json, path: seq<Place>)
    ensures At(Project(lower, flagged, j), path).Some? <==> At(j, path).Some? && PublicPath(lower, path)
    ensures At(Project(lower, flagged, j), path).Some? ==>
      PublishedAs(lower, flagged, At(j, path).value, At(Project(lower, flagged, j), path).value)
    decreases |path|
  {
    forall k: string ensures KeptKey(lower, k) <==> IsPublic(lower, k) {
      PublicExactly(lower, k);
    }
    if path == [] {
    } else {
      assert path == [path[0]] + path[1..];
      match (j, path[0])
      case (Obj(m), Key(k)) =>
        if k in m {
          PublishedExactly(lower, flagged, m[k], path[1..]);
        }
      case (Arr(items), Index(i)) =>
        if i < |items| {
          PublishedExactly(lower, flagged, items[i], path[1..]);
        }
      case _ =>
    }
  }

  // ---------------------------------------------------------------- the scanner

  /** The scanner has something to say about an object, or about an entry of one. */
  predicate Reported(lower: string -> string, redactedText: string -> bool, j: Json, f: Finding) {
    match f
    case Keyring(path) => At(j, path).Some? && At(j, path).value.Obj? && IsKeyring(lower, At(j, path).value.fields)
    case NotRedacted(path, kind) =>
      && path != [] && path[|path| - 1].Key? && At(j, path).Some? && kind != NotSecret
      && SecretLabelKind(lower, path[|path| - 1].key) == kind && !IsRedacted(redactedText, At(j, path).value)
  }

  predicate IsRedacted(redactedText: string -> bool, j: Json) {
    match j
    case Null => true
    case Str(s) => redactedText(s)
    case _ => false
  }

  /** An entry whose label is `active`, and the last one whose label is `keys` is an object that is not empty. */
  predicate IsKeyring(lower: string -> string, m: map<string, Json>) {
    && (exists a <- m :: Alphanumeric(lower(a)) == "active")
    && exists k <- m ::
         && Alphanumeric(lower(k)) == "keys"
         && (forall other <- m :: Alphanumeric(lower(other)) == "keys" ==> LexLe(other, k))
         && m[k].Obj? && |m[k].fields| > 0
  }

  /** The scanner reports exactly the keyrings and the unredacted entries with a secret label, at any depth. */
  lemma FindingsExactly(lower: string -> string, redactedText: string -> bool, j: Json, f: Finding)
    ensures f in Findings(lower, redactedText, j, []) <==> Reported(lower, redactedText, j, f)
  {
    FindingsBelow(lower, redactedText, j, [], f);
    assert [] + f.path == f.path;
  }

  function Moved(f: Finding, path: seq<Place>): Finding {
    f.(path := path + f.path)
  }

  lemma {:induction false} FindingsBelow(lower: string -> string, redactedText: string -> bool, j: Json,
                                         path: seq<Place>, f: Finding)
    ensures Moved(f, path) in Findings(lower, redactedText, j, path) <==> Reported(lower, redactedText, j, f)
    decreases j
  {
    match j
    case Obj(m) =>
      forall k | k in m
        ensures Moved(f, path) in Findings(lower, redactedText, m[k], path + [Key(k)])
          <==> Enters(f, Key(k)) && Reported(lower, redactedText, m[k], Rest(f))
      {
        FindingsAreBelow(lower, redactedText, m[k], path + [Key(k)]);
        if Enters(f, Key(k)) {
          FindingsBelow(lower, redactedText, m[k], path + [Key(k)], Rest(f));
          MovedAlong(f, path, Key(k));
        } else {
          NotMoved(f, path, Key(k));
        }
      }
      ObjectFindings(lower, redactedText, m, path, f);
    case Arr(items) =>
      forall i: nat | i < |items|
        ensures Moved(f, path) in Findings(lower, redactedText, items[i], path + [Index(i)])
          <==> Enters(f, Index(i)) && Reported(lower, redactedText, items[i], Rest(f))
      {
        FindingsAreBelow(lower, redactedText, items[i], path + [Index(i)]);
        if Enters(f, Index(i)) {
          FindingsBelow(lower, redactedText, items[i], path + [Index(i)], Rest(f));
          MovedAlong(f, path, Index(i));
        } else {
          NotMoved(f, path, Index(i));
        }
      }
      if f.path != [] {
        ReportedBelow(lower, redactedText, j, f);
      }
    case _ =>
  }

  predicate Enters(f: Finding, place: Place) {
    f.path != [] && f.path[0] == place
  }

  /** The findings of an object: itself, its entries, and what is inside them. */
  lemma ObjectFindings(lower: string -> string, redactedText: string -> bool, m: map<string, Json>, path: seq<Place>,
                       f: Finding)
    requires forall k <- m ::
      Moved(f, path) in Findings(lower, redactedText, m[k], path + [Key(k)]) <==>
        Enters(f, Key(k)) && Reported(lower, redactedText, m[k], Rest(f))
    ensures Moved(f, path) in Findings(lower, redactedText, Obj(m), path) <==> Reported(lower, redactedText, Obj(m), f)
  {
    InObject(lower, redactedText, m, path, Moved(f, path));
    if f.path == [] {
      AtItself(lower, redactedText, m, path, f);
    } else {
      ReportedBelow(lower, redactedText, Obj(m), f);
      EntryOf(lower, redactedText, m, path, f);
      assert f.path[0].Index? ==> forall k <- m :: !Enters(f, Key(k));
    }
  }

  lemma AtItself(lower: string -> string, redactedText: string -> bool, m: map<string, Json>, path: seq<Place>,
                 f: Finding)
    requires f.path == []
    ensures Moved(f, path) == Keyring(path) && KeyringShape(lower, m) <==> Reported(lower, redactedText, Obj(m), f)
    ensures forall k: string :: Moved(f, path).path != path + [Key(k)]
  {
    assert path + f.path == path;
    forall k: string ensures path != path + [Key(k)] {
      assert |path + [Key(k)]| == |path| + 1;
    }
  }

  lemma EntryOf(lower: string -> string, redactedText: string -> bool, m: map<string, Json>, path: seq<Place>,
                f: Finding)
    requires f.path != []
    ensures Moved(f, path) != Keyring(path)
    ensures forall k: string :: Moved(f, path).path == path + [Key(k)] <==> |f.path| == 1 && f.path[0] == Key(k)
  {
    assert |path + f.path| > |path|;
    forall k: string ensures path + f.path == path + [Key(k)] <==> |f.path| == 1 && f.path[0] == Key(k) {
      SameEnd(path, f.path, [Key(k)]);
    }
  }

  lemma SameEnd<T>(a: seq<T>, b: seq<T>, c: seq<T>)
    ensures a + b == a + c <==> b == c
  {
    assert (a + b)[|a|..] == b && (a + c)[|a|..] == c;
  }

  lemma InObject(lower: string -> string, redactedText: string -> bool, m: map<string, Json>, path: seq<Place>,
                 g: Finding)
    ensures g in Findings(lower, redactedText, Obj(m), path) <==>
      || (g == Keyring(path) && KeyringShape(lower, m))
      || (exists k <- m ::
            && g.NotRedacted? && g.path == path + [Key(k)]
            && EntryReported(lower, redactedText, k, m[k], g.kind))
      || (exists k <- m :: g in Findings(lower, redactedText, m[k], path + [Key(k)]))
  {
  }

  function Rest(f: Finding): Finding
    requires f.path != []
  {
    f.(path := f.path[1..])
  }

  lemma MovedAlong(f: Finding, path: seq<Place>, place: Place)
    requires f.path != [] && f.path[0] == place
    ensures Moved(Rest(f), path + [place]) == Moved(f, path)
  {
    assert path + [place] + f.path[1..] == path + f.path;
  }

  lemma NotMoved(f: Finding, path: seq<Place>, place: Place)
    ensures path + [place] <= Moved(f, path).path ==> Enters(f, place)
  {
    if path + [place] <= path + f.path {
      assert (path + f.path)[|path|] == place;
    }
  }

  /** A finding below a value is one in the part that its path leads into. */
  lemma ReportedBelow(lower: string -> string, redactedText: string -> bool, j: Json, f: Finding)
    requires f.path != []
    ensures match (j, f.path[0])
      case (Arr(items), Index(i)) =>
        Reported(lower, redactedText, j, f) <==> i < |items| && Reported(lower, redactedText, items[i], Rest(f))
      case (Obj(m), Key(k)) =>
        && (Reported(lower, redactedText, j, f) ==> k in m)
        && (k in m ==>
             (Reported(lower, redactedText, j, f) <==>
               Reported(lower, redactedText, m[k], Rest(f))
               || (|f.path| == 1 && f.NotRedacted? && EntryReported(lower, redactedText, k, m[k], f.kind))))
      case _ => !Reported(lower, redactedText, j, f)
  {
    if |f.path| > 1 {
      assert f.path[1..][|f.path| - 2] == f.path[|f.path| - 1];
    } else {
      assert f.path[1..] == [];
      if j.Obj? && f.path[0].Key? && f.path[0].key in j.fields {
        assert At(j.fields[f.path[0].key], []) == Some(j.fields[f.path[0].key]);
        assert At(j, f.path) == Some(j.fields[f.path[0].key]);
      }
    }
  }

  predicate EntryReported(lower: string -> string, redactedText: string -> bool, k: string, j: Json, kind: Kind) {
    kind != NotSecret && SecretLabelKind(lower, k) == kind && !IsRedacted(redactedText, j)
  }

  lemma {:induction false} FindingsAreBelow(lower: string -> string, redactedText: string -> bool, j: Json,
                                            path: seq<Place>)
    ensures forall g <- Findings(lower, redactedText, j, path) :: path <= g.path
    decreases j
  {
    match j
    case Obj(m) =>
      forall k | k in m ensures forall g <- Findings(lower, redactedText, m[k], path + [Key(k)]) :: path <= g.path {
        FindingsAreBelow(lower, redactedText, m[k], path + [Key(k)]);
      }
    case Arr(items) =>
      forall i: nat | i < |items|
        ensures forall g <- Findings(lower, redactedText, items[i], path + [Index(i)]) :: path <= g.path
      {
        FindingsAreBelow(lower, redactedText, items[i], path + [Index(i)]);
      }
    case _ =>
  }

  // ---------------------------------------------------------------- which labels are secret

  predicate HasPublicSuffix(n: string) {
    exists suffix <- PUBLIC_SUFFIXES :: EndsWith(n, suffix)
  }

  const RECOVERY_STARTS := ["recoveryplaintext", "recoverymaterial", "recoverypayload", "recoverydata"]

  /** The label says that the value is secret, one way or another. */
  predicate SoundsSecret(n: string) {
    || EndsWith(n, "password") || EndsWith(n, "clientsecret") || EndsWith(n, "privatekey")
    || EndsWith(n, "dsn") || n == "databaseurl"
    || Occurs(n, "kek")
    || n == "recovery"
    || exists start <- RECOVERY_STARTS :: start <= n
  }

  predicate KindFits(n: string, kind: Kind) {
    match kind
    case NotSecret => HasPublicSuffix(n) || !SoundsSecret(n)
    case Password => EndsWith(n, "password")
    case ClientSecret => EndsWith(n, "clientsecret")
    case DatabaseDsn => EndsWith(n, "dsn") || n == "databaseurl"
    case KekMaterial => Occurs(n, "kek")
    case RecoveryPlaintext => "recovery" <= n
    case PrivateKey => EndsWith(n, "privatekey")
  }

  /** A label is secret exactly if it sounds secret and has no public suffix, and its kind fits how it sounds. */
  lemma SecretExactly(lower: string -> string, name: string)
    ensures var n := Alphanumeric(lower(name));
      && (SecretLabelKind(lower, name) != NotSecret <==> SoundsSecret(n) && !HasPublicSuffix(n))
      && KindFits(n, SecretLabelKind(lower, name))
  {
    var n := Normalized(lower, name);
    ContainsExactly(n, "kek");
    RecoveryStarts(n);
  }

  lemma RecoveryStarts(n: string)
    ensures (exists start <- RECOVERY_STARTS :: start <= n) <==>
      || StartsWith(n, "recoveryplaintext") || StartsWith(n, "recoverymaterial") || StartsWith(n, "recoverypayload")
      || StartsWith(n, "recoverydata")
    ensures (exists start <- RECOVERY_STARTS :: start <= n) ==> "recovery" <= n
  {
    var starts := RECOVERY_STARTS;
    assert starts[0] in starts && starts[1] in starts && starts[2] in starts && starts[3] in starts;
    assert "recoveryplaintext"[..8] == "recovery" && "recoverymaterial"[..8] == "recovery";
    assert "recoverypayload"[..8] == "recovery" && "recoverydata"[..8] == "recovery";
  }
}
