/**
 The two forgery probes of scripts/verify_reference_faults.py on a compact JWS (section 7.1 of RFC 7515).
 `loads` is json.loads of decoded text (None where either raises), `dumps` the UTF-8 text of canonical JSON.
 */
module Jwt {
  import opened Common
  import opened JsonValues
  import opened Base64Url

  /** Python's `split(".")`. */
  function Split(s: string): (r: seq<string>)
    ensures r != []
  {
    if s == [] then [""]
    else
      var rest := Split(s[1..]);
      if s[0] == '.' then [""] + rest else [[s[0]] + rest[0]] + rest[1..]
  }

  function Token(header: string, payload: string, signature: string): string {
    header + "." + payload + "." + signature
  }

  lemma {:induction false} SplitWithoutDot(s: string)
    requires '.' !in s
    ensures Split(s) == [s]
  {
    if s == [] {
    } else {
      SplitWithoutDot(s[1..]);
      assert s == [s[0]] + s[1..];
    }
  }

  lemma {:induction false} SplitAtDot(s: string, t: string)
    requires '.' !in s
    ensures Split(s + "." + t) == [s] + Split(t)
  {
    var all := s + "." + t;
    if s == [] {
      assert all[1..] == t;
    } else {
      SplitAtDot(s[1..], t);
      assert all[0] == s[0] && all[1..] == s[1..] + "." + t;
      assert [s[0]] + s[1..] == s;
    }
  }

  lemma SplitToken(header: string, payload: string, signature: string)
    requires '.' !in header && '.' !in payload && '.' !in signature
    ensures Split(Token(header, payload, signature)) == [header, payload, signature]
  {
    SplitWithoutDot(signature);
    SplitAtDot(payload, signature);
    SplitAtDot(header, payload + "." + signature);
    assert Token(header, payload, signature) == header + "." + (payload + "." + signature);
  }

  /** The parts of a split hold no separator, and joined again they are the whole. */
  function Joined(parts: seq<string>): string
    requires parts != []
  {
    if |parts| == 1 then parts[0] else parts[0] + "." + Joined(parts[1..])
  }

  lemma {:induction false} SplitParts(s: string)
    ensures Joined(Split(s)) == s
    ensures forall part <- Split(s) :: '.' !in part
  {
    if s == [] {
    } else {
      SplitParts(s[1..]);
      var rest := Split(s[1..]);
      assert rest[0] in rest && forall part <- rest[1..] :: part in rest;
      if s[0] == '.' {
        JoinedEmpty(rest);
      } else {
        JoinedLonger(s[0], rest);
      }
      assert s == [s[0]] + s[1..];
    }
  }

  lemma JoinedEmpty(rest: seq<string>)
    requires rest != []
    ensures Joined([""] + rest) == ['.'] + Joined(rest)
  {
    assert ([""] + rest)[1..] == rest;
  }

  lemma JoinedLonger(c: char, rest: seq<string>)
    requires rest != []
    ensures Joined([[c] + rest[0]] + rest[1..]) == [c] + Joined(rest)
  {
    assert ([[c] + rest[0]] + rest[1..])[1..] == rest[1..];
    if |rest| > 1 {
      assert [c] + rest[0] + "." + Joined(rest[1..]) == [c] + (rest[0] + "." + Joined(rest[1..]));
    }
  }

  // ---------------------------------------------------------------- the probes

  function Corrupted(signature: string): string
    requires signature != ""
  {
    [if signature[0] != 'A' then 'A' else 'B'] + signature[1..]
  }

  function MutateSignature(token: string): Option<string> {
    var parts := Split(token);
    if |parts| != 3 || parts[0] == "" || parts[1] == "" || parts[2] == "" then None
    else Some(Token(parts[0], parts[1], Corrupted(parts[2])))
  }

  function MutateClaim(loads: seq<Byte> -> Option<Json>, dumps: Json -> seq<Byte>, token: string, claim: string,
                       value: Json)
    : Option<string>
  {
    var parts := Split(token);
    if |parts| != 3 then None
    else
      var payload := Decode(parts[1]);
      if payload.None? then None
      else
        var claims := loads(payload.value);
        if claims.None? || !claims.value.Obj? || parts[0] == "" || parts[2] == "" then None
        else Some(Token(parts[0], Encode(dumps(Obj(claims.value.fields[claim := value]))), parts[2]))
  }

  // ---------------------------------------------------------------- what they do

  /** What follows the first character of a signature when it is decoded. */
  function Rest(signature: string): string
    requires signature != ""
  {
    signature[1..] + Padding(|signature|)
  }

  /**
   The decoder notices the probe: the first character is a symbol, or the rest can still be read with one
   symbol before it, and then not one symbol less of it while all bytes are zero.
   */
  predicate Noticed(signature: string)
    requires signature != "" && Decode(signature).Some?
  {
    || Value(signature[0]).Some?
    || (var read, shifted := SymbolsRead(Rest(signature), 0, 0), SymbolsRead(Rest(signature), 1, 0);
        shifted.Some? && (read != Some(shifted.value + 1) || !AllZero(Decode(signature).value)))
  }

  /**
   The probe keeps the shape of a token and all of its other parts. A signature whose first character is a
   symbol decodes afterwards exactly if it did before, and then with another first byte and no other change.
   Any signature that decodes does so afterwards, to other bytes, exactly if the decoder notices the probe.
   */
  lemma SignatureChangesExactly(token: string)
    requires var parts := Split(token); |parts| == 3 && parts[0] != "" && parts[1] != "" && parts[2] != ""
    ensures MutateSignature(token).Some?
    ensures var (before, after) := (Split(token), Split(MutateSignature(token).value));
      && |after| == 3 && after[0] == before[0] && after[1] == before[1] && |after[2]| == |before[2]|
      && (Value(before[2][0]).Some? ==> FirstByteChanges(Decode(before[2]), Decode(after[2])))
      && (Decode(before[2]).Some? ==>
            (Decode(after[2]).Some? && Decode(after[2]) != Decode(before[2]) <==> Noticed(before[2])))
  {
    var parts := Split(token);
    var t := Corrupted(parts[2]);
    SplitParts(token);
    assert parts[0] in parts && parts[1] in parts && parts[2] in parts;
    assert '.' !in t;
    SplitToken(parts[0], parts[1], t);
    AfterTheProbe(parts[2]);
  }

  predicate IsToken(token: string, header: string, payload: string, signature: string) {
    && token == header + "." + payload + "." + signature
    && header != "" && payload != "" && signature != ""
    && '.' !in header && '.' !in payload && '.' !in signature
  }

  /** The probe answers exactly for three parts of which none is empty. */
  lemma ProbeAnswersExactly(token: string)
    ensures MutateSignature(token).Some? <==> exists h, p, s :: IsToken(token, h, p, s)
  {
    var parts := Split(token);
    if |parts| == 3 {
      ThreeParts(token);
      assert MutateSignature(token).Some? ==> IsToken(token, parts[0], parts[1], parts[2]);
    }
    if h, p, s :| IsToken(token, h, p, s) {
      SplitToken(h, p, s);
    }
  }

  lemma ThreeParts(token: string)
    requires |Split(token)| == 3
    ensures var parts := Split(token);
      && token == parts[0] + "." + parts[1] + "." + parts[2]
      && '.' !in parts[0] && '.' !in parts[1] && '.' !in parts[2]
  {
    var parts := Split(token);
    SplitParts(token);
    assert parts[0] in parts && parts[1] in parts && parts[2] in parts;
    assert Joined(parts[1..]) == parts[1] + "." + parts[2];
    assert parts[0] + "." + (parts[1] + "." + parts[2]) == parts[0] + "." + parts[1] + "." + parts[2];
  }

  lemma AfterTheProbe(s: string)
    requires s != ""
    ensures Value(s[0]).Some? ==> FirstByteChanges(Decode(s), Decode(Corrupted(s)))
    ensures Decode(s).Some? ==> (Decode(Corrupted(s)).Some? && Decode(Corrupted(s)) != Decode(s) <==> Noticed(s))
  {
    if Value(s[0]).Some? {
      FirstSymbolIsInFirstByte(s, Corrupted(s)[0]);
    } else if Decode(s).Some? {
      OtherFirstCharacter(s);
    }
  }

  /** Both decode or neither does, and the bytes differ in the first place and in no other. */
  predicate FirstByteChanges(before: Option<seq<Byte>>, after: Option<seq<Byte>>) {
    && (before.Some? <==> after.Some?)
    && (before.Some? ==>
          var a, b := before.value, after.value;
          a != [] && b != [] && a[0] != b[0] && a[1..] == b[1..])
  }

  lemma ProbeShifts(s: string)
    requires s != "" && Value(s[0]).None? && Ascii(s)
    ensures Decode(s) == Scan(Rest(s), 0, 0, 0) && Decode(Corrupted(s)) == Scan(Rest(s), 1, 0, 0)
  {
    var t := Corrupted(s);
    assert s[0] in s;
    SameAscii(s, 'A');
    FirstOther(s + Padding(|s|));
    FirstSymbol(t + Padding(|t|));
    assert (s + Padding(|s|))[1..] == Rest(s) && (t + Padding(|t|))[1..] == Rest(s);
  }

  /** A first character that the decoder skips is replaced by a symbol, so that all other symbols move on. */
  lemma OtherFirstCharacter(s: string)
    requires s != "" && Value(s[0]).None? && Decode(s).Some?
    ensures Decode(Corrupted(s)).Some? && Decode(Corrupted(s)) != Decode(s) <==> Noticed(s)
  {
    var t, rest := Corrupted(s), Rest(s);
    assert s[0] in s && Ascii(s);
    ProbeShifts(s);
    ReadExactly(rest, 0, 0, 0);
    ReadExactly(rest, 1, 0, 0);
    if Decode(t).Some? {
      ShiftedScan(rest, 0, 0, 0, 0);
      assert Ahead(0, 0) + Decode(t).value == Decode(t).value;
      ThreeBytesForFour(SymbolsRead(rest, 0, 0).value, SymbolsRead(rest, 1, 0).value + 1);
    }
  }

  lemma ThreeBytesForFour(m: nat, n: nat)
    requires m % 4 != 1 && n % 4 != 1
    ensures m * 3 / 4 == n * 3 / 4 <==> m == n
  {
  }

  lemma ReadPad(s: string, quad: nat, left: Sextet, pads: nat)
    requires Pending(quad, left)
    ensures Scan(['='] + s, quad, left, pads) ==
      if quad >= 2 && quad + pads + 1 >= 4 then Some([]) else Scan(s, quad, left, if quad >= 2 then pads + 1 else pads)
  {
    assert (['='] + s)[1..] == s;
  }

  /** A signature that decodes and no longer does after the probe. */
  lemma SkippedCharacterBreaks()
    ensures Decode("!") == Some([]) && Decode(Corrupted("!")) == None
  {
    assert Padding(1) == ['='] + (['='] + (['='] + []));
    assert Corrupted("!") == "A";
    forall quad: nat | quad <= 1 ensures Scan(Padding(1), quad, 0, 0) == Scan([], quad, 0, 0) {
      ReadPad([], quad, 0, 0);
      ReadPad(['='] + [], quad, 0, 0);
      ReadPad(['='] + (['='] + []), quad, 0, 0);
    }
    FirstOther("!" + Padding(1));
    FirstSymbol("A" + Padding(1));
    assert ("!" + Padding(1))[1..] == Padding(1) && ("A" + Padding(1))[1..] == Padding(1);
  }

  function Twice(s: string): string {
    ['='] + (['='] + s)
  }

  lemma TwiceEnds(s: string, left: Sextet)
    requires left < 16
    ensures Scan(Twice(s), 2, left, 0) == Some([])
  {
    ReadPad(['='] + s, 2, left, 0);
    ReadPad(s, 2, left, 1);
  }

  lemma TwiceIsSkipped(s: string, left: Sextet)
    ensures Scan(Twice(s), 1, left, 0) == Scan(s, 1, left, 0)
  {
    ReadPad(['='] + s, 1, left, 0);
    ReadPad(s, 1, left, 0);
  }

  lemma SymbolBeforePadding(c: char, v: Sextet, left: Sextet, a: Byte, s: string)
    requires Is(c, v) && Completed(1, left, v) == Some(a)
    ensures Scan([c] + Twice(s), 1, left, 0) == Some([a])
  {
    ScanStep(c, v, Twice(s), 1, left, 0);
    TwiceEnds(s, Left(1, v));
    assert [a] + [] == [a];
  }

  lemma SymbolAfterPadding(c: char, v: Sextet, s: string)
    requires Is(c, v)
    ensures Scan([c] + Twice(s), 0, 0, 0) == Scan(s, 1, v, 0)
  {
    ScanStep(c, v, Twice(s), 0, 0, 0);
    TwiceIsSkipped(s, v);
  }

  lemma ZeroByte(v: Sextet)
    requires v == 0
    ensures Completed(1, v, v) == Some(0)
  {
  }

  lemma SymbolAroundPadding(c: char, v: Sextet, s: string)
    requires Is(c, v) && v == 0
    ensures var rest := [c] + Twice([c] + Twice(s)); Scan(rest, 0, 0, 0) == Scan(rest, 1, v, 0) == Some([0])
  {
    ZeroByte(v);
    SymbolBeforePadding(c, v, v, 0, s);
    SymbolAfterPadding(c, v, [c] + Twice(s));
    SymbolBeforePadding(c, v, v, 0, [c] + Twice(s));
  }

  /** Signatures such as "!A==A" decode to the same byte after the probe. */
  lemma SkippedCharacterHides(s: string)
    requires |s| == 5 && Value(s[0]).None? && s[0] as int < 128 && s[1..] == "A==A"
    ensures Decode(s) == Decode(Corrupted(s)) == Some([0])
  {
    HiddenRest(s);
    HiddenByRest(s, 'A', 0);
  }

  lemma HiddenByRest(s: string, c: char, v: Sextet)
    requires s != "" && Value(s[0]).None? && Ascii(s) && Is(c, v) && v == 0
      && Rest(s) == [c] + Twice([c] + Twice(['=']))
    ensures Decode(s) == Decode(Corrupted(s)) == Some([0])
  {
    ProbeShifts(s);
    SymbolAroundPadding(c, v, ['=']);
  }

  lemma HiddenRest(s: string)
    requires |s| == 5 && s[0] as int < 128 && s[1..] == "A==A"
    ensures Ascii(s) && Rest(s) == ['A'] + Twice(['A'] + Twice(['=']))
  {
    assert Padding(5) == "===";
    assert s == [s[0]] + "A==A";
  }

  /** Exactly when the probe answers, and what it answers: header and signature kept, one claim updated. */
  lemma ClaimIsUpdated(loads: seq<Byte> -> Option<Json>, dumps: Json -> seq<Byte>, token: string, claim: string,
                       value: Json)
    requires forall j: Json :: j.Obj? ==> loads(dumps(j)) == Some(j)
    ensures MutateClaim(loads, dumps, token, claim, value).Some? <==>
      var parts := Split(token);
      && |parts| == 3 && parts[0] != "" && parts[2] != "" && Decode(parts[1]).Some?
      && loads(Decode(parts[1]).value).Some? && loads(Decode(parts[1]).value).value.Obj?
    ensures MutateClaim(loads, dumps, token, claim, value).Some? ==>
      var (before, after) := (Split(token), Split(MutateClaim(loads, dumps, token, claim, value).value));
      && |after| == 3 && after[0] == before[0] && after[2] == before[2]
      && Decode(after[1]).Some?
      && loads(Decode(after[1]).value) == Some(Obj(loads(Decode(before[1]).value).value.fields[claim := value]))
  {
    var parts := Split(token);
    if MutateClaim(loads, dumps, token, claim, value).Some? {
      var claims := loads(Decode(parts[1]).value).value.fields[claim := value];
      var bytes := dumps(Obj(claims));
      SplitParts(token);
      assert parts[0] in parts && parts[2] in parts;
      RoundTrip(bytes);
      EncodeIsUnpadded(bytes);
      UnpaddedIsPlain(bytes);
      assert '.' !in Encode(bytes) by {
        assert !Plain('.');
      }
      SplitToken(parts[0], Encode(bytes), parts[2]);
    }
  }

  /** A token made of three encoded parts is such a token. */
  lemma WellFormedTokens(header: seq<Byte>, payload: seq<Byte>, signature: seq<Byte>)
    requires header != [] && payload != [] && signature != []
    ensures var parts := Split(Token(Encode(header), Encode(payload), Encode(signature)));
      && parts == [Encode(header), Encode(payload), Encode(signature)]
      && parts[0] != "" && parts[1] != "" && parts[2] != "" && InAlphabet(parts[2])
      && Decode(parts[2]) == Some(signature)
  {
    forall bytes | bytes in {header, payload, signature}
      ensures '.' !in Encode(bytes) && InAlphabet(Encode(bytes)) && Encode(bytes) != ""
    {
      EncodeIsUnpadded(bytes);
      UnpaddedIsPlain(bytes);
      assert !Plain('.');
    }
    RoundTrip(signature);
    SplitToken(Encode(header), Encode(payload), Encode(signature));
  }
}
