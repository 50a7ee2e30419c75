/**
 Unpadded base64url (section 5 of RFC 4648) as scripts/verify_reference_faults.py encodes and decodes it.
 The decoder is Python's lenient one: it skips characters outside the alphabet and stops at full padding.
 */
module Base64Url {
  import opened Common

  newtype Byte = x: int | 0 <= x < 256 witness 0
  newtype Sextet = x: int | 0 <= x < 64 witness 0

  /** The URL-safe symbols, and '+' and '/', which the translation to the standard alphabet leaves alone. */
  function Value(c: char): Option<Sextet> {
    if 'A' <= c <= 'Z' then Some((c - 'A') as Sextet)
    else if 'a' <= c <= 'z' then Some((c - 'a') as Sextet + 26)
    else if '0' <= c <= '9' then Some((c - '0') as Sextet + 52)
    else if c == '-' || c == '+' then Some(62)
    else if c == '_' || c == '/' then Some(63)
    else None
  }

  predicate Plain(c: char) {
    Value(c).Some? && c != '=' && c != '.' && c as int < 128
  }

  function Symbol(v: Sextet): (c: char)
    ensures Value(c) == Some(v) && Plain(c)
  {
    if v < 26 then 'A' + v as char
    else if v < 52 then 'a' + (v - 26) as char
    else if v < 62 then '0' + (v - 52) as char
    else if v == 62 then '-'
    else '_'
  }

  predicate InAlphabet(s: string) {
    forall c <- s :: Value(c).Some?
  }

  // ---------------------------------------------------------------- encoding

  // The four symbols of three bytes.

  function First(a: Byte): Sextet {
    (a / 4) as Sextet
  }

  function Second(a: Byte, b: Byte): Sextet {
    (a as int % 4 * 16 + b as int / 16) as Sextet
  }

  function Third(b: Byte, c: Byte): Sextet {
    (b as int % 16 * 4 + c as int / 64) as Sextet
  }

  function Fourth(c: Byte): Sextet {
    (c as int % 64) as Sextet
  }

  /** `base64.urlsafe_b64encode`. */
  function Padded(bytes: seq<Byte>): string {
    if bytes == [] then ""
    else if |bytes| == 1 then [Symbol(First(bytes[0])), Symbol(Second(bytes[0], 0))] + ['=', '=']
    else if |bytes| == 2 then
      [Symbol(First(bytes[0])), Symbol(Second(bytes[0], bytes[1])), Symbol(Third(bytes[1], 0))] + ['=']
    else
      [Symbol(First(bytes[0])), Symbol(Second(bytes[0], bytes[1])), Symbol(Third(bytes[1], bytes[2])),
       Symbol(Fourth(bytes[2]))]
      + Padded(bytes[3..])
  }

  /** `rstrip("=")`. */
  function Stripped(s: string): string {
    if s != [] && s[|s| - 1] == '=' then Stripped(s[..|s| - 1]) else s
  }

  function Encode(bytes: seq<Byte>): string {
    Stripped(Padded(bytes))
  }

  // ---------------------------------------------------------------- decoding

  function Prepend(b: Option<Byte>, rest: Option<seq<Byte>>): Option<seq<Byte>> {
    if rest.None? then None else if b.Some? then Some([b.value] + rest.value) else rest
  }

  /** In group position `quad`, `left` holds the bits of the previous symbol that are not written yet. */
  predicate Pending(quad: nat, left: Sextet) {
    quad < 4 && (quad == 2 ==> left < 16) && (quad == 3 ==> left < 4)
  }

  /** The byte that a symbol completes. */
  function Completed(quad: nat, left: Sextet, v: Sextet): Option<Byte>
    requires Pending(quad, left)
  {
    if quad == 0 then None
    else if quad == 1 then Some((left as int * 4 + v as int / 16) as Byte)
    else if quad == 2 then Some((left as int * 16 + v as int / 4) as Byte)
    else Some((left as int * 64 + v as int) as Byte)
  }

  /** The bits of a symbol that are left for the next byte. */
  function Left(quad: nat, v: Sextet): (left: Sextet)
    requires quad < 4
    ensures Pending((quad + 1) % 4, left)
  {
    if quad == 0 then v else if quad == 1 then v % 16 else if quad == 2 then v % 4 else 0
  }

  function Scan(s: string, quad: nat, left: Sextet, pads: nat): Option<seq<Byte>>
    requires Pending(quad, left)
    decreases |s|
  {
    if s == [] then (if quad == 0 then Some([]) else None)
    else if s[0] == '=' then
      if quad >= 2 && quad + pads + 1 >= 4 then Some([])
      else Scan(s[1..], quad, left, if quad >= 2 then pads + 1 else pads)
    else
      match Value(s[0])
      case None => Scan(s[1..], quad, left, pads)
      case Some(v) => Prepend(Completed(quad, left, v), Scan(s[1..], (quad + 1) % 4, Left(quad, v), 0))
  }

  function Padding(n: int): string {
    seq(-n % 4, _ => '=')
  }

  /** `base64.urlsafe_b64decode(value + "=" * (-len(value) % 4))`, or None where it raises. */
  function Decode(value: string): Option<seq<Byte>> {
    if exists c <- value :: c as int >= 128 then None else Scan(value + Padding(|value|), 0, 0, 0)
  }

  // ---------------------------------------------------------------- round trip

  /** The encoding without its padding. */
  function Unpadded(bytes: seq<Byte>): string {
    if bytes == [] then ""
    else if |bytes| == 1 then [Symbol(First(bytes[0])), Symbol(Second(bytes[0], 0))]
    else if |bytes| == 2 then [Symbol(First(bytes[0])), Symbol(Second(bytes[0], bytes[1])), Symbol(Third(bytes[1], 0))]
    else
      [Symbol(First(bytes[0])), Symbol(Second(bytes[0], bytes[1])), Symbol(Third(bytes[1], bytes[2])),
       Symbol(Fourth(bytes[2]))]
      + Unpadded(bytes[3..])
  }

  lemma {:induction false} UnpaddedIsPlain(bytes: seq<Byte>)
    ensures forall c <- Unpadded(bytes) :: Plain(c)
    ensures bytes != [] ==> |Unpadded(bytes)| >= 2
    ensures |Unpadded(bytes)| % 4 != 1
  {
    if |bytes| >= 3 {
      UnpaddedIsPlain(bytes[3..]);
    }
  }

  lemma {:induction false} StrippedConcat(s: string, t: string)
    requires s != [] && Plain(s[|s| - 1])
    ensures Stripped(s + t) == s + Stripped(t)
    decreases |t|
  {
    if t == [] {
      assert s + t == s;
    } else if t[|t| - 1] == '=' {
      assert (s + t)[..|s + t| - 1] == s + t[..|t| - 1];
      StrippedConcat(s, t[..|t| - 1]);
    }
  }

  /** Stripping removes exactly the padding. */
  lemma {:induction false} EncodeIsUnpadded(bytes: seq<Byte>)
    ensures Encode(bytes) == Unpadded(bytes)
  {
    assert ['=', '='][..1] == ['='] && ['='][..0] == [];
    assert Stripped(['=']) == [] && Stripped(['=', '=']) == [];
    if |bytes| >= 3 {
      EncodeIsUnpadded(bytes[3..]);
      StrippedConcat([Symbol(First(bytes[0])), Symbol(Second(bytes[0], bytes[1])), Symbol(Third(bytes[1], bytes[2])),
                      Symbol(Fourth(bytes[2]))], Padded(bytes[3..]));
    } else if |bytes| == 2 {
      StrippedConcat([Symbol(First(bytes[0])), Symbol(Second(bytes[0], bytes[1])), Symbol(Third(bytes[1], 0))], ['=']);
    } else if |bytes| == 1 {
      StrippedConcat([Symbol(First(bytes[0])), Symbol(Second(bytes[0], 0))], ['=', '=']);
    }
  }

  lemma Recombine(a: Byte, b: Byte, c: Byte)
    ensures Completed(1, First(a), Second(a, b)) == Some(a)
    ensures Completed(2, Left(1, Second(a, b)), Third(b, c)) == Some(b)
    ensures Completed(3, Left(2, Third(b, c)), Fourth(c)) == Some(c)
  {
  }

  /** `c` is the symbol of `v`. */
  predicate Is(c: char, v: Sextet) {
    Value(c) == Some(v) && c != '='
  }

  lemma ScanStep(c: char, v: Sextet, s: string, quad: nat, left: Sextet, pads: nat)
    requires Pending(quad, left) && Is(c, v)
    ensures Scan([c] + s, quad, left, pads)
      == Prepend(Completed(quad, left, v), Scan(s, (quad + 1) % 4, Left(quad, v), 0))
  {
    assert ([c] + s)[1..] == s;
  }

  /** Two symbols give back the first byte. */
  lemma ScanFirst(c: char, d: char, p: Sextet, q: Sextet, a: Byte, s: string, left: Sextet, pads: nat)
    requires Is(c, p) && Is(d, q) && Completed(1, p, q) == Some(a)
    ensures Scan([c, d] + s, 0, left, pads) == Prepend(Some(a), Scan(s, 2, Left(1, q), 0))
  {
    assert [c, d] + s == [c] + ([d] + s);
    ScanStep(c, p, [d] + s, 0, left, pads);
    ScanStep(d, q, s, 1, p, 0);
  }

  /** The padding that is missing after `quad` symbols of a group ends the scan. */
  lemma ScanPadding(quad: nat, left: Sextet)
    requires 2 <= quad <= 3 && Pending(quad, left)
    ensures Scan(Padding(quad), quad, left, 0) == Some([])
  {
    if quad == 3 {
      assert Padding(3) == ['='];
    } else {
      assert Padding(2) == ['=', '='] && ['=', '='][1..] == ['='];
      assert Scan(['='], 2, left, 1) == Some([]);
    }
  }

  lemma ScanOne(c: char, d: char, p: Sextet, q: Sextet, a: Byte, left: Sextet, pads: nat)
    requires Is(c, p) && Is(d, q) && Completed(1, p, q) == Some(a)
    ensures Scan([c, d] + Padding(2), 0, left, pads) == Some([a])
  {
    ScanFirst(c, d, p, q, a, Padding(2), left, pads);
    ScanPadding(2, Left(1, q));
    assert [a] + [] == [a];
  }

  lemma ScanOther(c: char, d: char, e: char, p: Sextet, q: Sextet, r: Sextet, a: Byte, b: Byte, left: Sextet, pads: nat)
    requires Is(c, p) && Is(d, q) && Is(e, r) && Completed(1, p, q) == Some(a) && Completed(2, Left(1, q), r) == Some(b)
    ensures Scan([c, d, e] + Padding(3), 0, left, pads) == Some([a, b])
  {
    var last := [e] + Padding(3);
    assert [c, d, e] + Padding(3) == [c, d] + last;
    ScanFirst(c, d, p, q, a, last, left, pads);
    ScanStep(e, r, Padding(3), 2, Left(1, q), 0);
    ScanPadding(3, Left(2, r));
    assert [a] + ([b] + []) == [a, b];
  }

  lemma ScanGroup(c: char, d: char, e: char, f: char, p: Sextet, q: Sextet, r: Sextet, t: Sextet, bytes: seq<Byte>,
                  s: string, left: Sextet, pads: nat)
    requires Is(c, p) && Is(d, q) && Is(e, r) && Is(f, t) && |bytes| >= 3
    requires Completed(1, p, q) == Some(bytes[0]) && Completed(2, Left(1, q), r) == Some(bytes[1])
    requires Completed(3, Left(2, r), t) == Some(bytes[2]) && Scan(s, 0, 0, 0) == Some(bytes[3..])
    ensures Scan([c, d, e, f] + s, 0, left, pads) == Some(bytes)
  {
    assert [c, d, e, f] + s == [c, d] + ([e] + ([f] + s));
    ScanFirst(c, d, p, q, bytes[0], [e] + ([f] + s), left, pads);
    ScanStep(e, r, [f] + s, 2, Left(1, q), 0);
    ScanStep(f, t, s, 3, Left(2, r), 0);
    assert bytes == [bytes[0]] + ([bytes[1]] + ([bytes[2]] + bytes[3..]));
  }

  lemma {:induction false} ScanUnpadded(bytes: seq<Byte>, left: Sextet, pads: nat)
    ensures Scan(Unpadded(bytes) + Padding(|Unpadded(bytes)|), 0, left, pads) == Some(bytes)
  {
    if bytes == [] {
      assert Unpadded(bytes) + Padding(0) == [];
    } else if |bytes| < 3 {
      ScanRest(bytes, left, pads);
    } else {
      ScanUnpadded(bytes[3..], 0, 0);
      ScanThree(bytes, left, pads);
    }
  }

  lemma ScanRest(bytes: seq<Byte>, left: Sextet, pads: nat)
    requires 1 <= |bytes| <= 2
    ensures Scan(Unpadded(bytes) + Padding(|Unpadded(bytes)|), 0, left, pads) == Some(bytes)
  {
    var a, b := bytes[0], if |bytes| == 2 then bytes[1] else 0;
    var p, q, r := First(a), Second(a, b), Third(b, 0);
    Recombine(a, b, 0);
    if |bytes| == 1 {
      ScanOne(Symbol(p), Symbol(q), p, q, a, left, pads);
      assert bytes == [a];
    } else {
      ScanOther(Symbol(p), Symbol(q), Symbol(r), p, q, r, a, b, left, pads);
      assert bytes == [a, b];
    }
  }

  lemma ScanThree(bytes: seq<Byte>, left: Sextet, pads: nat)
    requires |bytes| >= 3
    requires Scan(Unpadded(bytes[3..]) + Padding(|Unpadded(bytes[3..])|), 0, 0, 0) == Some(bytes[3..])
    ensures Scan(Unpadded(bytes) + Padding(|Unpadded(bytes)|), 0, left, pads) == Some(bytes)
  {
    var rest := Unpadded(bytes[3..]);
    var p, q, r, t := First(bytes[0]), Second(bytes[0], bytes[1]), Third(bytes[1], bytes[2]), Fourth(bytes[2]);
    Recombine(bytes[0], bytes[1], bytes[2]);
    UnpaddedThree(bytes);
    ScanGroup(Symbol(p), Symbol(q), Symbol(r), Symbol(t), p, q, r, t, bytes, rest + Padding(|rest|), left, pads);
  }

  lemma UnpaddedThree(bytes: seq<Byte>)
    requires |bytes| >= 3
    ensures var rest := Unpadded(bytes[3..]);
      Unpadded(bytes) + Padding(|Unpadded(bytes)|)
      == [Symbol(First(bytes[0])), Symbol(Second(bytes[0], bytes[1])), Symbol(Third(bytes[1], bytes[2])),
          Symbol(Fourth(bytes[2]))]
         + (rest + Padding(|rest|))
  {
    Regroup([Symbol(First(bytes[0])), Symbol(Second(bytes[0], bytes[1])), Symbol(Third(bytes[1], bytes[2])),
             Symbol(Fourth(bytes[2]))],
            Unpadded(bytes[3..]));
  }

  lemma Regroup(head: string, rest: string)
    requires |head| == 4
    ensures head + rest + Padding(|head + rest|) == head + (rest + Padding(|rest|))
  {
    assert -(|rest| + 4) % 4 == -|rest| % 4;
    assert Padding(|rest| + 4) == Padding(|rest|);
  }

  /** Decoding undoes encoding for every byte string. */
  lemma RoundTrip(bytes: seq<Byte>)
    ensures Decode(Encode(bytes)) == Some(bytes)
  {
    EncodeIsUnpadded(bytes);
    UnpaddedIsPlain(bytes);
    ScanUnpadded(bytes, 0, 0);
  }

  // ---------------------------------------------------------------- what can be decoded

  lemma {:induction false} ScanSymbols(s: string, n: int, quad: nat, left: Sextet)
    requires InAlphabet(s) && Pending(quad, left)
    requires n % 4 == (quad + |s|) % 4
    ensures Scan(s + Padding(n), quad, left, 0).Some? <==> n % 4 != 1
  {
    var all := s + Padding(n);
    if s == [] {
      assert all == Padding(n) == Padding(quad);
      if quad == 0 {
        assert all == [];
      } else if quad == 1 {
        assert all == ['=', '=', '='] && all[1..] == ['=', '='] && all[1..][1..] == ['='] && all[1..][1..][1..] == [];
        assert Scan(['='], 1, left, 0) == None;
        assert Scan(['=', '='], 1, left, 0) == None;
      } else {
        ScanPadding(quad, left);
      }
    } else {
      assert all[0] == s[0] && all[1..] == s[1..] + Padding(n);
      assert s[0] in s && Value(s[0]).Some?;
      ScanSymbols(s[1..], n, (quad + 1) % 4, Left(quad, Value(s[0]).value));
    }
  }

  /** A string of symbols can be decoded exactly if its length is not one more than a multiple of four. */
  lemma DecodableLengths(s: string)
    requires InAlphabet(s)
    ensures Decode(s).Some? <==> |s| % 4 != 1
  {
    ScanSymbols(s, |s|, 0, 0);
    forall c | c in s ensures c as int < 128 {
      assert Value(c).Some?;
    }
  }

  // ---------------------------------------------------------------- what the first character decides

  /** Inside the first byte other bits before give another byte, and the same bytes after it. */
  lemma {:induction false} FirstBits(s: string, left: Sextet, other: Sextet, pads: nat)
    requires left != other
    ensures var (a, b) := (Scan(s, 1, left, pads), Scan(s, 1, other, pads));
      && (a.Some? <==> b.Some?)
      && (a.Some? ==> a.value != [] && b.value != [] && a.value[0] != b.value[0] && a.value[1..] == b.value[1..])
  {
    if s == [] {
    } else if s[0] == '=' || Value(s[0]).None? {
      FirstBits(s[1..], left, other, pads);
    } else {
      var v := Value(s[0]).value;
      assert Completed(1, left, v) != Completed(1, other, v);
    }
  }

  lemma FirstSymbol(s: string)
    requires s != "" && Value(s[0]).Some?
    ensures Scan(s, 0, 0, 0) == Scan(s[1..], 1, Value(s[0]).value, 0)
  {
  }

  lemma FirstOther(s: string)
    requires s != "" && Value(s[0]).None?
    ensures Scan(s, 0, 0, 0) == Scan(s[1..], 0, 0, 0)
  {
  }

  /** Changing a first symbol changes the first byte, and nothing else, whatever characters follow. */
  lemma FirstSymbolIsInFirstByte(s: string, c: char)
    requires s != "" && Value(s[0]).Some? && Value(c).Some? && Value(c) != Value(s[0])
    ensures Decode(s).Some? <==> Decode([c] + s[1..]).Some?
    ensures Decode(s).Some? ==>
      var (a, b) := (Decode(s).value, Decode([c] + s[1..]).value);
      a != [] && b != [] && a[0] != b[0] && a[1..] == b[1..]
  {
    var t := [c] + s[1..];
    SameAscii(s, c);
    var sAll, tAll := s + Padding(|s|), t + Padding(|t|);
    FirstSymbol(sAll);
    FirstSymbol(tAll);
    assert sAll[1..] == tAll[1..];
    FirstBits(sAll[1..], Value(s[0]).value, Value(c).value, 0);
  }

  predicate Ascii(s: string) {
    forall c <- s :: c as int < 128
  }

  lemma SameAscii(s: string, c: char)
    requires s != "" && c as int < 128 && s[0] as int < 128
    ensures Ascii([c] + s[1..]) <==> Ascii(s)
  {
    forall d | d in s && Ascii([c] + s[1..]) ensures d as int < 128 {
      assert d == s[0] || d in [c] + s[1..];
    }
    forall d | d in [c] + s[1..] && Ascii(s) ensures d as int < 128 {
      assert d == c || d in s;
    }
  }

  /** How many symbols the decoder reads from place `quad` of a group, or None where it raises. */
  function SymbolsRead(s: string, quad: nat, pads: nat): Option<nat>
    requires quad < 4
    decreases |s|
  {
    if s == [] then (if quad == 0 then Some(0) else None)
    else if s[0] == '=' then
      if quad >= 2 && quad + pads + 1 >= 4 then Some(0)
      else SymbolsRead(s[1..], quad, if quad >= 2 then pads + 1 else pads)
    else if Value(s[0]).None? then SymbolsRead(s[1..], quad, pads)
    else
      var rest := SymbolsRead(s[1..], (quad + 1) % 4, 0);
      if rest.None? then None else Some(rest.value + 1)
  }

  /** The symbols that are read fix how many bytes there are; one symbol is never left over. */
  lemma {:induction false} ReadExactly(s: string, quad: nat, left: Sextet, pads: nat)
    requires Pending(quad, left)
    ensures Scan(s, quad, left, pads).Some? <==> SymbolsRead(s, quad, pads).Some?
    ensures Scan(s, quad, left, pads).Some? ==>
      var n := SymbolsRead(s, quad, pads).value;
      |Scan(s, quad, left, pads).value| == (quad + n) * 3 / 4 - quad * 3 / 4 && (quad + n) % 4 != 1
  {
    if s == [] {
    } else if s[0] == '=' {
      if quad >= 2 && quad + pads + 1 >= 4 {
      } else {
        ReadExactly(s[1..], quad, left, if quad >= 2 then pads + 1 else pads);
      }
    } else if Value(s[0]).None? {
      ReadExactly(s[1..], quad, left, pads);
    } else {
      var v, next := Value(s[0]).value, (quad + 1) % 4;
      ReadExactly(s[1..], next, Left(quad, v), 0);
      if Scan(s, quad, left, pads).Some? {
        ScanSymbol(s, quad, left, pads);
        OneMoreSymbol(quad, SymbolsRead(s[1..], next, 0).value);
      }
    }
  }

  lemma OneMoreSymbol(quad: nat, n: nat)
    requires quad < 4
    ensures var next := (quad + 1) % 4;
      && (quad + n + 1) * 3 / 4 - quad * 3 / 4 == (next + n) * 3 / 4 - next * 3 / 4 + (if quad == 0 then 0 else 1)
      && (quad + n + 1) % 4 == (next + n) % 4
  {
  }

  predicate AllZero(bytes: seq<Byte>) {
    forall b <- bytes :: b == 0
  }

  // A reader that is one symbol ahead: it has written the byte of `Ahead`, and has the bits of `AheadLeft` left.

  function Ahead(quad: nat, left: Sextet): seq<Byte>
    requires Pending(quad, left) && quad < 4
  {
    if quad == 0 then [] else if quad == 1 then [(left / 16) as Byte] else if quad == 2 then [(left / 4) as Byte]
    else [left as Byte]
  }

  function AheadLeft(quad: nat, left: Sextet): (r: Sextet)
    requires Pending(quad, left)
    ensures Pending((quad + 1) % 4, r)
  {
    if quad == 1 then left % 16 else if quad == 2 then left % 4 else 0
  }

  /** The byte that is under way when `quad` symbols of its group were read starts with the bits that are left. */
  lemma {:induction false} NextByte(s: string, quad: nat, left: Sextet, pads: nat) returns (v: Sextet)
    requires Pending(quad, left) && quad > 0
    requires Scan(s, quad, left, pads).Some? && Scan(s, quad, left, pads).value != []
    ensures Completed(quad, left, v) == Some(Scan(s, quad, left, pads).value[0])
  {
    if s[0] == '=' {
      v := NextByte(s[1..], quad, left, if quad >= 2 then pads + 1 else pads);
    } else if Value(s[0]).None? {
      v := NextByte(s[1..], quad, left, pads);
    } else {
      v := Value(s[0]).value;
    }
  }

  function One(b: Option<Byte>): seq<Byte> {
    if b.Some? then [b.value] else []
  }

  /** The bits left and those of the next symbol that go into the same byte are all zero. */
  predicate NoBits(quad: nat, left: Sextet, v: Sextet)
    requires Pending(quad, left)
  {
    quad == 0 || Completed(quad, left, v) == Some(0)
  }

  /** What both readers write for one symbol: the same after zeros, or else at once something else. */
  predicate InStep(quad: nat, left: Sextet, v: Sextet)
    requires Pending(quad, left)
  {
    var done := One(Completed(quad, left, v));
    var written := Ahead(quad, left) + One(Completed((quad + 1) % 4, AheadLeft(quad, left), v));
    if NoBits(quad, left, v) then
      && written == done + Ahead((quad + 1) % 4, Left(quad, v))
      && Left((quad + 1) % 4, v) == AheadLeft((quad + 1) % 4, Left(quad, v))
      && (quad == 3 ==> v == 0)
    else
      done != [] && written != [] && done[0] != 0 && done[0] != written[0]
  }

  lemma AheadStep(quad: nat, left: Sextet, v: Sextet)
    requires Pending(quad, left) && (quad == 0 ==> left == 0)
    ensures InStep(quad, left, v)
  {
    if quad == 0 {
      assert (0 * 16 + v as int / 16) as Byte == (v / 16) as Byte;
    } else if quad == 1 {
      AheadInFirst(left, v);
    } else if quad == 2 {
      AheadInSecond(left, v);
    } else {
      AheadInThird(left, v);
    }
  }

  lemma AheadInFirst(left: Sextet, v: Sextet)
    ensures InStep(1, left, v)
  {
    var written := Ahead(1, left) + One(Completed(2, left % 16, v));
    assert written[0] == (left / 16) as Byte;
    if NoBits(1, left, v) {
      assert left == 0 && v < 16;
      assert written == [0, (v / 4) as Byte];
    }
  }

  lemma AheadInSecond(left: Sextet, v: Sextet)
    requires left < 16
    ensures InStep(2, left, v)
  {
    var written := Ahead(2, left) + One(Completed(3, left % 4, v));
    assert written[0] == (left / 4) as Byte;
    if NoBits(2, left, v) {
      assert left == 0 && v < 4;
      assert written == [0, v as Byte];
    }
  }

  lemma AheadInThird(left: Sextet, v: Sextet)
    requires left < 4
    ensures InStep(3, left, v)
  {
    var written := Ahead(3, left) + One(Completed(0, 0, v));
    assert written == [left as Byte];
    if NoBits(3, left, v) {
      assert left == 0 && v == 0;
    }
  }

  ghost predicate SameExactlyIfZero(a: seq<Byte>, b: seq<Byte>) {
    a == b <==> |a| == |b| && AllZero(a)
  }

  lemma SameAfterZeros(zeros: seq<Byte>, a: seq<Byte>, b: seq<Byte>)
    requires AllZero(zeros) && SameExactlyIfZero(a, b)
    ensures SameExactlyIfZero(zeros + a, zeros + b)
  {
    assert zeros + a == zeros + b <==> a == b by {
      assert (zeros + a)[|zeros|..] == a && (zeros + b)[|zeros|..] == b;
    }
    assert AllZero(zeros + a) <==> AllZero(a) by {
      assert forall x <- a :: x in zeros + a;
    }
  }

  /** Read from the next place of a group the same characters give the same bytes only if all of them are zero. */
  lemma {:induction false} ShiftedScan(s: string, quad: nat, left: Sextet, pads: nat, aheadPads: nat)
    requires Pending(quad, left) && (quad == 0 ==> left == 0)
    requires Scan(s, quad, left, pads).Some? && Scan(s, (quad + 1) % 4, AheadLeft(quad, left), aheadPads).Some?
    ensures SameExactlyIfZero(Scan(s, quad, left, pads).value,
                              Ahead(quad, left) + Scan(s, (quad + 1) % 4, AheadLeft(quad, left), aheadPads).value)
    decreases |s|, 1
  {
    if s == [] {
    } else if s[0] == '=' {
      ShiftedPad(s, quad, left, pads, aheadPads);
    } else if Value(s[0]).None? {
      ShiftedScan(s[1..], quad, left, pads, aheadPads);
    } else {
      ShiftedSymbol(s, quad, left, pads, aheadPads);
    }
  }

  lemma {:induction false} ShiftedPad(s: string, quad: nat, left: Sextet, pads: nat, aheadPads: nat)
    requires Pending(quad, left) && (quad == 0 ==> left == 0) && s != [] && s[0] == '='
    requires Scan(s, quad, left, pads).Some? && Scan(s, (quad + 1) % 4, AheadLeft(quad, left), aheadPads).Some?
    ensures SameExactlyIfZero(Scan(s, quad, left, pads).value,
                              Ahead(quad, left) + Scan(s, (quad + 1) % 4, AheadLeft(quad, left), aheadPads).value)
    decreases |s|, 0
  {
    var next := (quad + 1) % 4;
    var a, b := Scan(s, quad, left, pads).value, Scan(s, next, AheadLeft(quad, left), aheadPads).value;
    if quad >= 2 && quad + pads + 1 >= 4 {
      assert a == [] && Ahead(quad, left) + b != [];
    } else if next >= 2 && next + aheadPads + 1 >= 4 {
      var y := Ahead(quad, left)[0];
      assert Ahead(quad, left) + b == [y];
      if a != [] {
        var v := NextByte(s, quad, left, pads);
        SameByteIsZero(quad, left, v);
        OneZero(a, y);
      }
    } else {
      ShiftedScan(s[1..], quad, left, if quad >= 2 then pads + 1 else pads,
                  if next >= 2 then aheadPads + 1 else aheadPads);
    }
  }

  lemma {:induction false} ShiftedSymbol(s: string, quad: nat, left: Sextet, pads: nat, aheadPads: nat)
    requires Pending(quad, left) && (quad == 0 ==> left == 0) && s != [] && s[0] != '=' && Value(s[0]).Some?
    requires Scan(s, quad, left, pads).Some? && Scan(s, (quad + 1) % 4, AheadLeft(quad, left), aheadPads).Some?
    ensures SameExactlyIfZero(Scan(s, quad, left, pads).value,
                              Ahead(quad, left) + Scan(s, (quad + 1) % 4, AheadLeft(quad, left), aheadPads).value)
    decreases |s|, 0
  {
    var next, v := (quad + 1) % 4, Value(s[0]).value;
    ScanSymbol(s, quad, left, pads);
    ScanSymbol(s, next, AheadLeft(quad, left), aheadPads);
    var x := Scan(s[1..], next, Left(quad, v), 0).value;
    var y := Scan(s[1..], (next + 1) % 4, Left(next, v), 0).value;
    AheadStep(quad, left, v);
    if NoBits(quad, left, v) {
      ShiftedScan(s[1..], next, Left(quad, v), 0, 0);
    }
    ShiftedWrites(quad, left, v, x, y);
  }

  lemma ScanSymbol(s: string, quad: nat, left: Sextet, pads: nat)
    requires Pending(quad, left) && s != [] && s[0] != '=' && Value(s[0]).Some? && Scan(s, quad, left, pads).Some?
    ensures var v := Value(s[0]).value;
      var rest := Scan(s[1..], (quad + 1) % 4, Left(quad, v), 0);
      rest.Some? && Scan(s, quad, left, pads).value == One(Completed(quad, left, v)) + rest.value
  {
  }

  /** Both readers meet one symbol, and then read `x` and `y`. */
  lemma ShiftedWrites(quad: nat, left: Sextet, v: Sextet, x: seq<Byte>, y: seq<Byte>)
    requires Pending(quad, left) && (quad == 0 ==> left == 0)
    requires NoBits(quad, left, v) ==> SameExactlyIfZero(x, Ahead((quad + 1) % 4, Left(quad, v)) + y)
    ensures SameExactlyIfZero(One(Completed(quad, left, v)) + x,
                              Ahead(quad, left) + (One(Completed((quad + 1) % 4, AheadLeft(quad, left), v)) + y))
  {
    var done, ahead := One(Completed(quad, left, v)), Ahead(quad, left);
    var next := One(Completed((quad + 1) % 4, AheadLeft(quad, left), v));
    AheadStep(quad, left, v);
    Regrouped(ahead, next, y);
    if NoBits(quad, left, v) {
      var later := Ahead((quad + 1) % 4, Left(quad, v));
      SameAfterZeros(done, x, later + y);
      Regrouped(done, later, y);
    } else {
      DiffersAtOnce(done, x, ahead + next, y);
    }
  }

  lemma Regrouped(a: seq<Byte>, b: seq<Byte>, c: seq<Byte>)
    ensures a + (b + c) == a + b + c
  {
  }

  lemma DiffersAtOnce(a: seq<Byte>, x: seq<Byte>, b: seq<Byte>, y: seq<Byte>)
    requires a != [] && b != [] && a[0] != b[0] && a[0] != 0
    ensures SameExactlyIfZero(a + x, b + y)
  {
    assert (a + x)[0] == a[0] && (b + y)[0] == b[0];
    assert a[0] in a + x;
  }

  lemma OneZero(a: seq<Byte>, y: Byte)
    requires a != [] && (a[0] == y || a[0] == 0 ==> y == 0)
    ensures SameExactlyIfZero(a, [y])
  {
    assert a[0] in a;
  }

  lemma SameByteIsZero(quad: nat, left: Sextet, v: Sextet)
    requires Pending(quad, left) && 1 <= quad <= 2
    ensures Completed(quad, left, v) == Some(Ahead(quad, left)[0]) ==> Ahead(quad, left)[0] == 0
    ensures Completed(quad, left, v) == Some(0) ==> Ahead(quad, left)[0] == 0
  {
  }
}
