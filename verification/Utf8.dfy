/**
 Go strings are byte sequences; `range` and `string(r)` go through UTF-8 (section 3 of RFC 3629).
 Both directions are modelled in full, with Go's replacement character for a malformed byte.
 */
module Utf8 {

  type byte = x: int | 0 <= x < 256

  // A Unicode scalar value: surrogates are not runes of a valid Go string.
  type rune = r: int | 0 <= r < 0xD800 || 0xE000 <= r < 0x110000

  const REPLACEMENT: rune := 0xFFFD

  function EncodeRune(r: rune): (s: seq<byte>)
    ensures 1 <= |s| <= 4
    ensures |s| == 1 <==> r < 0x80
    ensures r < 0x80 ==> s == [r]
    ensures 0x80 <= r ==> forall i :: 0 <= i < |s| ==> 0x80 <= s[i]
    ensures s[0] < 0x80 || 0xC2 <= s[0]
  {
    if r < 0x80 then [r]
    else if r < 0x800 then [0xC0 + r / 0x40, 0x80 + r % 0x40]
    else if r < 0x10000 then [0xE0 + r / 0x1000, 0x80 + r / 0x40 % 0x40, 0x80 + r % 0x40]
    else [0xF0 + r / 0x40000, 0x80 + r / 0x1000 % 0x40, 0x80 + r / 0x40 % 0x40, 0x80 + r % 0x40]
  }

  predicate IsContinuation(b: byte) {
    0x80 <= b < 0xC0
  }

  // The six payload bits of a continuation byte.
  function Low(b: byte): int {
    b - 0x80
  }

  // The range of the second byte depends on the first one, so that overlong forms,
  // surrogates and values from 0x110000 up are malformed.
  predicate IsSecond(first: byte, b: byte) {
    && (if first == 0xE0 then 0xA0 else if first == 0xF0 then 0x90 else 0x80) <= b
    && b < (if first == 0xED then 0xA0 else if first == 0xF4 then 0x90 else 0xC0)
  }

  /** The first rune of `s` and the number of bytes it takes; a malformed byte counts as one replacement character. */
  function DecodeRune(s: seq<byte>): (r: (rune, nat))
    requires s != []
    ensures 1 <= r.1 <= |s| && r.1 <= 4
    ensures s[0] < 0x80 ==> r == (s[0], 1)
  {
    var b: int := s[0];
    if b < 0x80 then (b, 1)
    else if 0xC2 <= b < 0xE0 && |s| >= 2 && IsContinuation(s[1]) then
      ((b - 0xC0) * 0x40 + Low(s[1]), 2)
    else if 0xE0 <= b < 0xF0 && |s| >= 3 && IsSecond(b, s[1]) && IsContinuation(s[2]) then
      ((b - 0xE0) * 0x1000 + Low(s[1]) * 0x40 + Low(s[2]), 3)
    else if 0xF0 <= b < 0xF5 && |s| >= 4 && IsSecond(b, s[1]) && IsContinuation(s[2]) && IsContinuation(s[3]) then
      ((b - 0xF0) * 0x40000 + Low(s[1]) * 0x1000 + Low(s[2]) * 0x40 + Low(s[3]), 4)
    else (REPLACEMENT, 1)
  }

  /** What `range` delivers. */
  function Runes(s: seq<byte>): (rs: seq<rune>)
    ensures |rs| <= |s|
  {
    if s == [] then [] else
    var (r, width) := DecodeRune(s);
    [r] + Runes(s[width..])
  }

  function Encode(rs: seq<rune>): (s: seq<byte>)
    ensures |rs| <= |s|
  {
    if rs == [] then [] else EncodeRune(rs[0]) + Encode(rs[1..])
  }

  predicate Ascii(s: seq<byte>) {
    forall i :: 0 <= i < |s| ==> s[i] < 0x80
  }

  lemma Split(r: int)
    ensures r / 0x40 / 0x40 == r / 0x1000 && r / 0x40 / 0x40 / 0x40 == r / 0x40000
  {
  }

  lemma DecodeAfterEncode(r: rune, rest: seq<byte>)
    ensures DecodeRune(EncodeRune(r) + rest) == (r, |EncodeRune(r)|)
  {
    var e := EncodeRune(r);
    var s := e + rest;
    assert s[0] == e[0];
    if 0x80 <= r { assert s[1] == e[1]; }
    if 0x800 <= r { assert s[2] == e[2]; Split(r); }
    if 0x10000 <= r { assert s[3] == e[3]; }
  }

  /** Nothing is lost by turning runes into bytes: the two directions of section 3 of RFC 3629 agree. */
  lemma {:induction false} RunesOfEncode(rs: seq<rune>)
    ensures Runes(Encode(rs)) == rs
  {
    if rs != [] {
      DecodeAfterEncode(rs[0], Encode(rs[1..]));
      assert Encode(rs)[|EncodeRune(rs[0])|..] == Encode(rs[1..]);
      RunesOfEncode(rs[1..]);
    }
  }

  lemma {:induction false} AsciiRunes(s: seq<byte>)
    requires Ascii(s)
    ensures Runes(s) == s
  {
    if s != [] {
      AsciiRunes(s[1..]);
    }
  }

  /** Only ASCII text has as many bytes as runes. */
  lemma {:induction false} SameLengthOnlyAscii(rs: seq<rune>)
    ensures |Encode(rs)| == |rs| <==> Ascii(Encode(rs))
  {
    if rs != [] {
      SameLengthOnlyAscii(rs[1..]);
      var head, tail := EncodeRune(rs[0]), Encode(rs[1..]);
      assert head + tail == Encode(rs);
      if Ascii(head + tail) {
        assert head[0] == (head + tail)[0];
        forall i | 0 <= i < |tail| ensures tail[i] < 0x80 { assert tail[i] == (head + tail)[|head| + i]; }
      }
    }
  }

  predicate HasTail(s: seq<byte>) {
    forall i :: 0 < i < |s| ==> 128 <= s[i] < 192
  }

  function LastSix(b: byte): (n: int) {
    b as int - 128
  }

  /**
   The table of section 3 of RFC 3629: how many octets a character takes, which values they have, and the
   number their payloads make.
   */
  lemma OctetForms(r: rune)
    ensures var s := EncodeRune(r);
            if r < 0x80 then s == [r]
            else if r < 0x800 then
              |s| == 2 && HasTail(s) && 192 <= s[0] < 224 && r == (s[0] as int - 192) * 64 + LastSix(s[1])
            else if r < 0x10000 then
              && |s| == 3 && HasTail(s) && 224 <= s[0] < 240
              && r == (s[0] as int - 224) * 4096 + LastSix(s[1]) * 64 + LastSix(s[2])
            else
              && |s| == 4 && HasTail(s) && 240 <= s[0] < 245
              && r == (s[0] as int - 240) * 262144 + LastSix(s[1]) * 4096 + LastSix(s[2]) * 64 + LastSix(s[3])
  {
    Split(r);
  }
}
