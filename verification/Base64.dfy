/**
 The web panel's Base64 over UTF-8 (internal/pkg/web/resources/common.js). A JavaScript string is a
 sequence of 16-bit code units; `charCodeAt` past the end is NaN, which the bit operators read as 0.
 */
module Base64 {
  import opened Wrappers

  type unit = bv16

  type octet = u: bv16 | u < 256

  const PAD: unit := 61  // '='

  // ---------------------------------------------------------------- line ends

  /** `replace(/\r\n/g, "\n")`: one pass from the left. */
  function Normalize(s: seq<unit>): (r: seq<unit>)
    ensures |r| <= |s|
  {
    if s == [] then []
    else if HasLineEnd(s) then [10] + Normalize(s[2..])
    else [s[0]] + Normalize(s[1..])
  }

  predicate HasLineEnd(s: seq<unit>) {
    |s| >= 2 && s[0] == 13 && s[1] == 10
  }

  // ---------------------------------------------------------------- UTF-8

  // The leading and the trailing octets of a sequence.
  function Lead2(c: unit): (o: octet)
    requires c < 2048
  {
    (c >> 6) | 192
  }

  function Lead3(c: unit): (o: octet) {
    (c >> 12) | 224
  }

  function Middle(c: unit): (o: octet) {
    ((c >> 6) & 63) | 128
  }

  function Last(c: unit): (o: octet) {
    (c & 63) | 128
  }

  function EncodeUnit(c: unit): (o: seq<octet>)
    ensures 1 <= |o| <= 3
  {
    if c < 128 then [c]
    else if c < 2048 then [Lead2(c), Last(c)]
    else [Lead3(c), Middle(c), Last(c)]
  }

  function EncodeUnits(s: seq<unit>): (o: seq<octet>) {
    if s == [] then [] else EncodeUnit(s[0]) + EncodeUnits(s[1..])
  }

  lemma NothingCoded()
    ensures EncodeUnits([]) == [] && DecodeUnits([]) == []
  {
  }

  lemma DropEnds<T>(s: seq<T>, n: nat)
    ensures Drop(s, 0) == s
    ensures |s| <= n ==> Drop(s, n) == []
  {
  }

  lemma EncodeUnitsNext(s: seq<unit>, n: nat)
    requires n < |s|
    ensures EncodeUnits(s[n..]) == EncodeUnit(s[n]) + EncodeUnits(s[n + 1..])
  {
    assert s[n..][1..] == s[n + 1..];
  }

  method Utf8Encode(string_: seq<unit>) returns (utftext: seq<octet>)
    ensures utftext == EncodeUnits(Normalize(string_))
  {
    hide EncodeUnits, Normalize, Lead2, Lead3, Middle, Last;
    NothingCoded();
    var s := Normalize(string_);
    utftext := [];
    for n := 0 to |s|
      invariant utftext + EncodeUnits(s[n..]) == EncodeUnits(s)
    {
      var c := s[n];
      ghost var before := utftext;
      if c < 128 {
        utftext := utftext + [c];
      } else if c > 127 && c < 2048 {
        utftext := utftext + [Lead2(c)];
        utftext := utftext + [Last(c)];
      } else {
        utftext := utftext + [Lead3(c)];
        utftext := utftext + [Middle(c)];
        utftext := utftext + [Last(c)];
      }
      assert utftext == before + EncodeUnit(c);
      EncodeUnitsNext(s, n);
    }
    assert s[|s|..] == [];
  }

  function At(s: seq<unit>, i: nat): (c: Option<unit>) {
    if i < |s| then Some(s[i]) else None
  }

  function Bits(c: Option<unit>): (u: unit) {
    if c.Some? then c.value else 0
  }

  function FromTwo(c: unit, c2: unit): (u: unit) {
    ((c & 31) << 6) | (c2 & 63)
  }

  function FromThree(c: unit, c2: unit, c3: unit): (u: unit) {
    ((c & 15) << 12) | ((c2 & 63) << 6) | (c3 & 63)
  }

  // Leading bytes are told apart by range only, and nothing is checked about the others.
  function DecodeUnit(t: seq<unit>): (r: (unit, nat))
    requires t != []
    ensures 1 <= r.1 <= 3
  {
    var c, c2, c3 := t[0], Bits(At(t, 1)), Bits(At(t, 2));
    if c < 128 then (c, 1)
    else if c > 191 && c < 224 then (FromTwo(c, c2), 2)
    else (FromThree(c, c2, c3), 3)
  }

  function Drop<T>(s: seq<T>, n: nat): (r: seq<T>)
    ensures |r| == if n <= |s| then |s| - n else 0
  {
    if n <= |s| then s[n..] else []
  }

  function DecodeUnits(t: seq<unit>): (s: seq<unit>)
    decreases |t|
  {
    if t == [] then [] else
    var (c, width) := DecodeUnit(t);
    [c] + DecodeUnits(Drop(t, width))
  }

  lemma DecodeUnitsNext(t: seq<unit>, i: nat)
    requires i < |t|
    ensures var (c, width) := DecodeUnit(t[i..]);
            DecodeUnits(Drop(t, i)) == [c] + DecodeUnits(Drop(t, i + width))
    ensures At(t[i..], 1) == At(t, i + 1) && At(t[i..], 2) == At(t, i + 2)
  {
    hide DecodeUnit;
    var width := DecodeUnit(t[i..]).1;
    assert Drop(t[i..], width) == Drop(t, i + width);
  }

  method Utf8Decode(utftext: seq<unit>) returns (string_: seq<unit>)
    ensures string_ == DecodeUnits(utftext)
  {
    hide DecodeUnits, FromTwo, FromThree, Drop, Bits;
    string_ := [];
    var i := 0;
    DropEnds(utftext, 0);
    NothingCoded();
    while i < |utftext|
      invariant string_ + DecodeUnits(Drop(utftext, i)) == DecodeUnits(utftext)
    {
      DecodeUnitsNext(utftext, i);
      ghost var before, at := string_, i;
      var c := utftext[i];
      if c < 128 {
        string_ := string_ + [c];
        i := i + 1;
      } else if c > 191 && c < 224 {
        var c2 := Bits(At(utftext, i + 1));
        string_ := string_ + [FromTwo(c, c2)];
        i := i + 2;
      } else {
        var c2 := Bits(At(utftext, i + 1));
        var c3 := Bits(At(utftext, i + 2));
        string_ := string_ + [FromThree(c, c2, c3)];
        i := i + 3;
      }
      assert string_ == before + [DecodeUnit(utftext[at..]).0] && i == at + DecodeUnit(utftext[at..]).1;
    }
    DropEnds(utftext, i);
  }

  // ---------------------------------------------------------------- groups of four

  // `_keyStr.charAt`
  function Symbol(v: unit): (c: unit)
    requires v <= 64
  {
    if v < 26 then v + 65
    else if v < 52 then v + 71
    else if v < 62 then v - 4
    else if v == 62 then 43
    else if v == 63 then 47
    else PAD
  }

  predicate IsSymbol(c: unit) {
    65 <= c <= 90 || 97 <= c <= 122 || 48 <= c <= 57 || c == 43 || c == 47 || c == PAD
  }

  // `_keyStr.indexOf` of a character of the alphabet; the empty string past the end is found at 0.
  function Index(c: Option<unit>): (v: unit)
    requires c.Some? ==> IsSymbol(c.value)
    ensures v <= 64
    ensures c.Some? ==> Symbol(v) == c.value
  {
    match c
    case None => 0
    case Some(u) =>
      if 65 <= u <= 90 then u - 65
      else if 97 <= u <= 122 then u - 71
      else if 48 <= u <= 57 then u + 4
      else if u == 43 then 62
      else if u == 47 then 63
      else 64
  }

  // The four indices of a group of three octets, and the way back.
  function Sextet1(c1: octet): (e: unit)
    ensures e < 64
  {
    c1 >> 2
  }

  function Sextet2(c1: octet, c2: octet): (e: unit)
    ensures e < 64
  {
    ((c1 & 3) << 4) | (c2 >> 4)
  }

  function Sextet3(c2: octet, c3: octet): (e: unit)
    ensures e < 64
  {
    ((c2 & 15) << 2) | (c3 >> 6)
  }

  function Sextet4(c3: octet): (e: unit)
    ensures e < 64
  {
    c3 & 63
  }

  function Octet1(e1: unit, e2: unit): (c: unit) {
    (e1 << 2) | (e2 >> 4)
  }

  function Octet2(e2: unit, e3: unit): (c: unit) {
    ((e2 & 15) << 4) | (e3 >> 2)
  }

  function Octet3(e3: unit, e4: unit): (c: unit) {
    ((e3 & 3) << 6) | e4
  }

  function OctetOr0(o: seq<octet>, i: nat): (c: octet) {
    if i < |o| then o[i] else 0
  }

  // Where an octet is missing the padding character stands.
  function Quad(o: seq<octet>): (q: seq<unit>)
    requires o != []
    ensures |q| == 4
  {
    var c1, c2, c3 := o[0], OctetOr0(o, 1), OctetOr0(o, 2);
    [ Symbol(Sextet1(c1)),
      Symbol(Sextet2(c1, c2)),
      if |o| < 2 then PAD else Symbol(Sextet3(c2, c3)),
      if |o| < 3 then PAD else Symbol(Sextet4(c3)) ]
  }

  function EncodeOctets(o: seq<octet>): (s: seq<unit>)
    decreases |o|
  {
    if o == [] then [] else Quad(o) + EncodeOctets(Drop(o, 3))
  }

  predicate AllSymbols(s: seq<unit>) {
    forall i :: 0 <= i < |s| ==> IsSymbol(s[i])
  }

  function DecodeQuad(q: seq<unit>): (o: seq<unit>)
    requires q != [] && AllSymbols(q)
  {
    var e1, e2, e3, e4 := Index(At(q, 0)), Index(At(q, 1)), Index(At(q, 2)), Index(At(q, 3));
    [Octet1(e1, e2)]
    + (if e3 != 64 then [Octet2(e2, e3)] else [])
    + (if e4 != 64 then [Octet3(e3, e4)] else [])
  }

  function DecodeQuads(s: seq<unit>): (o: seq<unit>)
    requires AllSymbols(s)
    decreases |s|
  {
    if s == [] then [] else DecodeQuad(s) + DecodeQuads(Drop(s, 4))
  }

  /** `replace(/[^A-Za-z0-9\+\/\=]/g, "")` */
  function Filter(s: seq<unit>): (r: seq<unit>)
    ensures AllSymbols(r)
  {
    if s == [] then []
    else if IsSymbol(s[0]) then [s[0]] + Filter(s[1..])
    else Filter(s[1..])
  }

  // ---------------------------------------------------------------- the two methods

  function Encoded(s: seq<unit>): (r: seq<unit>) {
    EncodeOctets(EncodeUnits(Normalize(s)))
  }

  function Decoded(s: seq<unit>): (r: seq<unit>) {
    DecodeUnits(DecodeQuads(Filter(s)))
  }

  lemma NothingGrouped()
    ensures EncodeOctets([]) == [] && DecodeQuads([]) == []
  {
  }

  lemma EncodeOctetsNext(o: seq<octet>, i: nat)
    requires i < |o|
    ensures EncodeOctets(Drop(o, i)) == Quad(o[i..]) + EncodeOctets(Drop(o, i + 3))
    ensures OctetOr0(o[i..], 1) == OctetOr0(o, i + 1) && OctetOr0(o[i..], 2) == OctetOr0(o, i + 2)
  {
    hide Quad;
    assert Drop(o[i..], 3) == Drop(o, i + 3);
  }

  lemma DecodeQuadsNext(s: seq<unit>, i: nat)
    requires AllSymbols(s) && i < |s|
    ensures AllSymbols(Drop(s, i)) && AllSymbols(Drop(s, i + 4)) && AllSymbols(s[i..])
    ensures DecodeQuads(Drop(s, i)) == DecodeQuad(s[i..]) + DecodeQuads(Drop(s, i + 4))
    ensures At(s[i..], 0) == At(s, i) && At(s[i..], 1) == At(s, i + 1)
    ensures At(s[i..], 2) == At(s, i + 2) && At(s[i..], 3) == At(s, i + 3)
    ensures forall k: nat :: At(s, k).Some? ==> IsSymbol(At(s, k).value)
  {
    hide DecodeQuad;
    assert Drop(s[i..], 4) == Drop(s, i + 4);
  }

  method Encode(input: seq<unit>) returns (output: seq<unit>)
    ensures output == Encoded(input)
  {
    hide EncodeUnits, Normalize, Symbol, Sextet1, Sextet2, Sextet3, Sextet4, EncodeOctets, Drop;
    NothingGrouped();
    var o := Utf8Encode(input);
    output := [];
    var i := 0;
    DropEnds(o, 0);
    while i < |o|
      invariant output + EncodeOctets(Drop(o, i)) == EncodeOctets(o)
    {
      EncodeOctetsNext(o, i);
      ghost var before, at := output, i;
      var chr1, chr2, chr3 := o[i], OctetOr0(o, i + 1), OctetOr0(o, i + 2);
      i := i + 3;
      var enc1 := Sextet1(chr1);
      var enc2 := Sextet2(chr1, chr2);
      var enc3 := Sextet3(chr2, chr3);
      var enc4 := Sextet4(chr3);
      if |o| <= i - 2 {         // chr2 is NaN
        enc3, enc4 := 64, 64;
      } else if |o| <= i - 1 {  // chr3 is NaN
        enc4 := 64;
      }
      PadIs64();
      output := output + [Symbol(enc1), Symbol(enc2), Symbol(enc3), Symbol(enc4)];
      assert output == before + Quad(o[at..]);
    }
    DropEnds(o, i);
  }

  lemma PadIs64()
    ensures Symbol(64) == PAD
  {
  }

  method Decode(input: seq<unit>) returns (output: seq<unit>)
    ensures output == Decoded(input)
  {
    hide DecodeUnits, Index, Octet1, Octet2, Octet3, Filter, IsSymbol, DecodeQuads, Drop, At;
    NothingGrouped();
    var s := Filter(input);
    var octets: seq<unit> := [];
    var i := 0;
    DropEnds(s, 0);
    while i < |s|
      invariant AllSymbols(Drop(s, i)) && octets + DecodeQuads(Drop(s, i)) == DecodeQuads(s)
    {
      DecodeQuadsNext(s, i);
      ghost var before, at := octets, i;
      var enc1, enc2, enc3, enc4 := Index(At(s, i)), Index(At(s, i + 1)), Index(At(s, i + 2)), Index(At(s, i + 3));
      i := i + 4;
      var chr1 := Octet1(enc1, enc2);
      var chr2 := Octet2(enc2, enc3);
      var chr3 := Octet3(enc3, enc4);
      octets := octets + [chr1];
      if enc3 != 64 {
        octets := octets + [chr2];
      }
      if enc4 != 64 {
        octets := octets + [chr3];
      }
      assert octets == before + DecodeQuad(s[at..]);
    }
    DropEnds(s, i);
    assert octets == DecodeQuads(s);
    output := Utf8Decode(octets);
  }

  // ---------------------------------------------------------------- round trip

  lemma UnitBits(c: unit)
    ensures 128 <= c < 2048 ==> 191 < Lead2(c) < 224 && FromTwo(Lead2(c), Last(c)) == c
    ensures 2048 <= c ==> 224 <= Lead3(c) && FromThree(Lead3(c), Middle(c), Last(c)) == c
  {
  }

  /** Every 16-bit unit, lone surrogates included, survives the packing into one, two or three octets. */
  lemma UnitRoundTrip(c: unit, rest: seq<unit>)
    ensures DecodeUnit(EncodeUnit(c) + rest) == (c, |EncodeUnit(c)|)
  {
    hide FromTwo, FromThree, Lead2, Lead3, Middle, Last;
    UnitBits(c);
    var o := EncodeUnit(c);
    var t := o + rest;
    assert t[0] == o[0];
    if c >= 128 { assert t[1] == o[1]; }
    if c >= 2048 { assert t[2] == o[2]; }
  }

  lemma {:induction false} UnitsRoundTrip(s: seq<unit>)
    ensures DecodeUnits(EncodeUnits(s)) == s
  {
    if s != [] {
      hide EncodeUnit, DecodeUnit;
      UnitRoundTrip(s[0], EncodeUnits(s[1..]));
      assert Drop(EncodeUnits(s), |EncodeUnit(s[0])|) == EncodeUnits(s[1..]);
      UnitsRoundTrip(s[1..]);
    }
  }

  lemma SextetsAndBack(c1: octet, c2: octet, c3: octet)
    ensures Octet1(Sextet1(c1), Sextet2(c1, c2)) == c1
    ensures Octet2(Sextet2(c1, c2), Sextet3(c2, c3)) == c2
    ensures Octet3(Sextet3(c2, c3), Sextet4(c3)) == c3
  {
  }

  lemma IndexOfSymbol(v: unit)
    requires v <= 64
    ensures IsSymbol(Symbol(v)) && Index(Some(Symbol(v))) == v
  {
  }

  lemma QuadRoundTrip(o: seq<octet>, rest: seq<unit>)
    requires o != [] && AllSymbols(rest)
    ensures AllSymbols(Quad(o) + rest)
    ensures DecodeQuad(Quad(o) + rest) == if |o| < 3 then o else o[..3]
  {
    hide Symbol, IsSymbol, Index, Sextet1, Sextet2, Sextet3, Sextet4, Octet1, Octet2, Octet3;
    var c1, c2, c3 := o[0], OctetOr0(o, 1), OctetOr0(o, 2);
    IndexOfSymbol(Sextet1(c1));
    IndexOfSymbol(Sextet2(c1, c2));
    IndexOfSymbol(Sextet3(c2, c3));
    IndexOfSymbol(Sextet4(c3));
    IndexOfSymbol(64);
    PadIs64();
    SextetsAndBack(c1, c2, c3);
    var q := Quad(o) + rest;
    assert forall i :: 0 <= i < 4 ==> q[i] == Quad(o)[i];
  }

  lemma {:induction false} OctetsRoundTrip(o: seq<octet>)
    ensures AllSymbols(EncodeOctets(o)) && DecodeQuads(EncodeOctets(o)) == o
    decreases |o|
  {
    if o != [] {
      hide Quad, DecodeQuad, IsSymbol;
      OctetsRoundTrip(Drop(o, 3));
      var rest := EncodeOctets(Drop(o, 3));
      QuadRoundTrip(o, rest);
      assert Drop(Quad(o) + rest, 4) == rest;
      assert o == (if |o| < 3 then o else o[..3]) + Drop(o, 3);
    }
  }

  lemma {:induction false} FilterSymbols(s: seq<unit>)
    requires AllSymbols(s)
    ensures Filter(s) == s
  {
    if s != [] {
      FilterSymbols(s[1..]);
    }
  }

  /** Decoding what was encoded gives the text back with its line ends normalised. */
  lemma RoundTrip(s: seq<unit>)
    ensures Decoded(Encoded(s)) == Normalize(s)
  {
    hide Filter, DecodeQuads, DecodeUnits, EncodeOctets, EncodeUnits, Normalize, IsSymbol;
    OctetsRoundTrip(EncodeUnits(Normalize(s)));
    FilterSymbols(Encoded(s));
    UnitsRoundTrip(Normalize(s));
  }

  predicate LineEndFree(s: seq<unit>) {
    forall i :: 0 <= i < |s| - 1 ==> !(s[i] == 13 && s[i + 1] == 10)
  }

  /** The text itself comes back exactly when it holds no CR LF. */
  lemma RoundTripExactly(s: seq<unit>)
    ensures Decoded(Encoded(s)) == s <==> LineEndFree(s)
  {
    hide Decoded, Encoded;
    RoundTrip(s);
    NormalizeIdentity(s);
  }

  lemma {:induction false} NormalizeIdentity(s: seq<unit>)
    ensures Normalize(s) == s <==> LineEndFree(s)
  {
    if s != [] {
      NormalizeIdentity(s[1..]);
      if HasLineEnd(s) {
        assert s[0] == 13 && s[0 + 1] == 10;
      } else {
        assert Normalize(s) == s ==> Normalize(s[1..]) == Normalize(s)[1..] == s[1..];
        forall i | LineEndFree(s) && 0 <= i < |s[1..]| - 1 ensures !(s[1..][i] == 13 && s[1..][i + 1] == 10) {
          assert s[1..][i] == s[i + 1] && s[1..][i + 1] == s[(i + 1) + 1];
        }
        forall i | LineEndFree(s[1..]) && 0 <= i < |s| - 1 ensures !(s[i] == 13 && s[i + 1] == 10) {
          if i > 0 { assert s[1..][i - 1] == s[i] && s[1..][(i - 1) + 1] == s[i + 1]; }
        }
      }
    }
  }

  // ---------------------------------------------------------------- shape

  // How many padding characters end the encoding of n octets.
  function Padding(n: nat): (k: nat) {
    (3 - n % 3) % 3
  }

  lemma PaddingArithmetic(n: nat)
    ensures n >= 3 ==> Padding(n) == Padding(n - 3)
    ensures Padding(n) <= 2 && Padding(0) == 0
    ensures n >= 1 ==> (n + 2) / 3 == 1 + ((if n < 3 then 0 else n - 3) + 2) / 3
  {
  }

  /** Length, alphabet and place of the padding, as in section 4 of RFC 4648. */
  lemma {:induction false} EncodedShape(o: seq<octet>)
    ensures |EncodeOctets(o)| == 4 * ((|o| + 2) / 3)
    ensures AllSymbols(EncodeOctets(o))
    ensures forall i :: 0 <= i < |EncodeOctets(o)| ==>
              (EncodeOctets(o)[i] == PAD <==> i >= |EncodeOctets(o)| - Padding(|o|))
    decreases |o|
  {
    hide IsSymbol, Quad, Padding;
    PaddingArithmetic(|o|);
    OctetsRoundTrip(o);
    if o != [] {
      EncodedShape(Drop(o, 3));
      QuadPadding(o);
      var s, rest := EncodeOctets(o), EncodeOctets(Drop(o, 3));
      assert |s| == 4 + |rest|;
      if |o| <= 3 { assert rest == []; }
      forall i | 0 <= i < |s| ensures s[i] == PAD <==> i >= |s| - Padding(|o|) {
        assert s[i] == if i < 4 then Quad(o)[i] else rest[i - 4];
      }
    }
  }

  lemma QuadPadding(o: seq<octet>)
    requires o != []
    ensures forall i :: 0 <= i < 4 ==> (Quad(o)[i] == PAD <==> |o| <= 3 && i >= 4 - Padding(|o|))
  {
    hide Symbol, Sextet1, Sextet2, Sextet3, Sextet4;
    var c1, c2, c3 := o[0], OctetOr0(o, 1), OctetOr0(o, 2);
    OnlyPadIsPad(Sextet1(c1));
    OnlyPadIsPad(Sextet2(c1, c2));
    OnlyPadIsPad(Sextet3(c2, c3));
    OnlyPadIsPad(Sextet4(c3));
  }

  lemma OnlyPadIsPad(v: unit)
    requires v < 64
    ensures Symbol(v) != PAD
  {
  }

  /** The indices of a group are its bits cut into sixes: the octets side by side are the sextets side by side. */
  lemma GroupIsConcatenation(c1: octet, c2: octet, c3: octet)
    ensures ((c1 as bv32) << 16) | ((c2 as bv32) << 8) | (c3 as bv32)
         == ((Sextet1(c1) as bv32) << 18) | ((Sextet2(c1, c2) as bv32) << 12)
            | ((Sextet3(c2, c3) as bv32) << 6) | (Sextet4(c3) as bv32)
  {
  }

  // ---------------------------------------------------------------- foreign characters

  // `s` with arbitrary foreign characters before, between and after its characters.
  function Weave(s: seq<unit>, noise: seq<seq<unit>>): (r: seq<unit>)
    requires |noise| == |s| + 1
  {
    if s == [] then noise[0] else noise[0] + [s[0]] + Weave(s[1..], noise[1..])
  }

  predicate Foreign(s: seq<unit>) {
    forall i :: 0 <= i < |s| ==> !IsSymbol(s[i])
  }

  lemma {:induction false} FilterForeign(noise: seq<unit>, s: seq<unit>)
    requires Foreign(noise)
    ensures Filter(noise + s) == Filter(s)
  {
    hide IsSymbol;
    if noise == [] {
      assert noise + s == s;
    } else {
      assert (noise + s)[1..] == noise[1..] + s;
      FilterForeign(noise[1..], s);
    }
  }

  lemma {:induction false} FilterWeave(s: seq<unit>, noise: seq<seq<unit>>)
    requires |noise| == |s| + 1
    requires forall i :: 0 <= i < |noise| ==> Foreign(noise[i])
    ensures Filter(Weave(s, noise)) == Filter(s)
  {
    hide IsSymbol;
    if s == [] {
      FilterForeign(noise[0], []);
      assert noise[0] + [] == noise[0];
    } else {
      var rest := Weave(s[1..], noise[1..]);
      FilterWeave(s[1..], noise[1..]);
      FilterForeign(noise[0], [s[0]] + rest);
      assert noise[0] + [s[0]] + rest == noise[0] + ([s[0]] + rest);
      assert ([s[0]] + rest)[1..] == rest;
    }
  }

  /**
   Any text may be broken up by foreign characters anywhere without changing what it decodes to; from an
   encoded one comes the text that was encoded.
   */
  lemma ForeignIgnored(s: seq<unit>, noise: seq<seq<unit>>)
    requires |noise| == |s| + 1
    requires forall i :: 0 <= i < |noise| ==> Foreign(noise[i])
    ensures Decoded(Weave(s, noise)) == Decoded(s)
    ensures forall text :: s == Encoded(text) ==> Decoded(Weave(s, noise)) == Normalize(text)
  {
    hide Weave, Foreign, Filter, DecodeQuads, DecodeUnits, Encoded, Normalize, IsSymbol;
    FilterWeave(s, noise);
    forall text | s == Encoded(text) ensures Decoded(s) == Normalize(text) {
      RoundTrip(text);
    }
  }

  // ---------------------------------------------------------------- the forms spelled out

  /** Each pair CR LF becomes LF, whatever stands around it; other texts stay (`RoundTripExactly`). */
  lemma {:induction false} LineEndReplaced(a: seq<unit>, b: seq<unit>)
    ensures Normalize(a + [13, 10] + b) == Normalize(a) + [10] + Normalize(b)
    decreases |a|
  {
    var s := a + [13, 10] + b;
    if a == [] {
      assert s[2..] == b;
    } else if HasLineEnd(a) {
      assert s[2..] == a[2..] + [13, 10] + b;
      LineEndReplaced(a[2..], b);
    } else {
      assert s[1..] == a[1..] + [13, 10] + b;
      assert !HasLineEnd(s) by { if |a| > 1 { assert s[1] == a[1]; } }
      LineEndReplaced(a[1..], b);
    }
  }

  /** The one-, two- and three-octet forms, as numbers. */
  lemma UnitForms(c: unit)
    ensures c < 128 ==> EncodeUnit(c) == [c]
    ensures 128 <= c < 2048 ==> EncodeUnit(c) == [192 + c / 64, 128 + c % 64]
    ensures 2048 <= c ==> EncodeUnit(c) == [224 + c / 4096, 128 + c / 64 % 64, 128 + c % 64]
  {
  }

  /** ABC..Z, abc..z, 0 to 9, plus, slash and the padding. */
  lemma Alphabet()
    ensures [Symbol(0), Symbol(1), Symbol(2), Symbol(3), Symbol(4), Symbol(5), Symbol(6), Symbol(7), Symbol(8),
             Symbol(9), Symbol(10), Symbol(11), Symbol(12), Symbol(13), Symbol(14), Symbol(15), Symbol(16),
             Symbol(17), Symbol(18), Symbol(19), Symbol(20), Symbol(21), Symbol(22), Symbol(23), Symbol(24), Symbol(25)]
         == [65, 66, 67, 68, 69, 70, 71, 72, 73, 74, 75, 76, 77, 78, 79, 80, 81, 82, 83, 84, 85, 86, 87, 88, 89, 90]
    ensures [Symbol(26), Symbol(27), Symbol(28), Symbol(29), Symbol(30), Symbol(31), Symbol(32), Symbol(33), Symbol(34),
             Symbol(35), Symbol(36), Symbol(37), Symbol(38), Symbol(39), Symbol(40), Symbol(41), Symbol(42),
             Symbol(43), Symbol(44), Symbol(45), Symbol(46), Symbol(47), Symbol(48), Symbol(49), Symbol(50), Symbol(51)]
         == [97, 98, 99, 100, 101, 102, 103, 104, 105, 106, 107, 108, 109, 110, 111, 112, 113, 114, 115, 116, 117, 118,
             119, 120, 121, 122]
    ensures [Symbol(52), Symbol(53), Symbol(54), Symbol(55), Symbol(56), Symbol(57), Symbol(58), Symbol(59), Symbol(60),
             Symbol(61), Symbol(62), Symbol(63), Symbol(64)]
         == [48, 49, 50, 51, 52, 53, 54, 55, 56, 57, 43, 47, 61]
  {
  }

  /** What the first octet says about the others, as numbers; an octet past the end reads as 0. */
  lemma DecodedForms(t: seq<unit>)
    requires t != [] && t[0] < 256
    ensures var c, c2, c3 := t[0], if |t| > 1 then t[1] else 0, if |t| > 2 then t[2] else 0;
            DecodeUnit(t)
            == if c < 128 then (c, 1)
               else if 192 <= c < 224 then (c % 32 * 64 + c2 % 64, 2)
               else (c % 16 * 4096 + c2 % 64 * 64 + c3 % 64, 3)
  {
  }

  /** A last group of two or three characters gives three octets, as if the first character of the alphabet followed. */
  lemma ShortGroup(q: seq<unit>)
    requires 2 <= |q| <= 3 && AllSymbols(q) && forall i :: 0 <= i < |q| ==> q[i] != 61
    ensures DecodeQuad(q) == DecodeQuad(q + seq(4 - |q|, _ => 65)) && |DecodeQuad(q)| == 3
  {
    var full := q + seq(4 - |q|, _ => 65);
    assert forall i :: 0 <= i < 4 ==> full[i] == if i < |q| then q[i] else 65;
    hide Octet1, Octet2, Octet3;
  }
}
