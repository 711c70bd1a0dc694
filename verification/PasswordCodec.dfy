/**
 The reversible encoding of the stored password: a length prefix, a cyclic key, a checksum modulo 100
 and random padding (internal/pkg/common/utils.go).
 */
module PasswordCodec {
  import opened Wrappers
  import opened Utf8
  import opened Bits
  import Hex

  const MAX_ENC_PASS := 48

  // ---------------------------------------------------------------- checksum

  function Sum(rs: seq<rune>): (n: nat) {
    if rs == [] then 0 else rs[0] + Sum(rs[1..])
  }

  function Control(s: seq<byte>): (n: byte)
    ensures n < 100
  {
    Sum(Runes(s)) % 100
  }

  method ControlNum(str: seq<byte>) returns (n: byte)
    ensures n == Control(str)
  {
    var i: nat, rest := 0, str;
    while rest != []
      invariant i + Sum(Runes(rest)) == Sum(Runes(str))
      decreases |rest|
    {
      var (b, width) := DecodeRune(rest);
      i := i + b;
      rest := rest[width..];
    }
    n := i % 100;
  }

  // ---------------------------------------------------------------- encoding

  function KeyAt(key: seq<byte>, i: nat): (b: byte)
    requires key != []
  {
    key[i % |key|]
  }

  // `string(n)` of an integer that is no scalar value is the replacement character.
  function LengthRune(n: nat): (r: rune) {
    if n < 0xD800 || 0xE000 <= n < 0x110000 then n else REPLACEMENT
  }

  function Prefixed(text: seq<byte>): (s: seq<byte>) {
    EncodeRune(LengthRune(|text|)) + text
  }

  // One byte per rune, but the key runs along the byte offsets that `range` reports.
  function Cipher(s: seq<byte>, offset: nat, key: seq<byte>): (c: seq<byte>)
    requires key != []
    ensures |c| == |Runes(s)|
  {
    if s == [] then [] else
    var (r, width) := DecodeRune(s);
    [Xor(r % 256, KeyAt(key, offset))] + Cipher(s[width..], offset + width, key)
  }

  function Body(text: seq<byte>, key: seq<byte>): (b: seq<byte>)
    requires key != []
    ensures b != []
  {
    Cipher(Prefixed(text), 0, key) + [Control(text)]
  }

  function SaltLength(text: seq<byte>, key: seq<byte>): (n: nat)
    requires key != []
  {
    var used := 2 * |Body(text, key)|;
    if used < MAX_ENC_PASS then MAX_ENC_PASS - used else 0
  }

  // `RandInt(65, 90)` excludes its upper bound.
  predicate IsRandomString(s: seq<byte>, l: nat) {
    |s| == l && forall i :: 0 <= i < l ==> 'A' as int <= s[i] < 'Z' as int
  }

  function Encrypted(text: seq<byte>, key: seq<byte>, salt: seq<byte>): (s: seq<byte>)
    requires key != []
  {
    Hex.Encode(Body(text, key) + salt)
  }

  /** The generator redraws until two draws differ; only the accepted draws are modelled. */
  method RandomString(l: nat) returns (s: seq<byte>)
    ensures IsRandomString(s, l)
  {
    s := [];
    while |s| < l
      invariant IsRandomString(s, |s|) && |s| <= l
    {
      var c: byte :| 'A' as int <= c < 'Z' as int;
      s := s + [c];
    }
  }

  /** The length and the text, each byte masked by the next one of the cyclic key, and the sum modulo 100. */
  predicate IsMasked(decoded: Option<seq<byte>>, text: seq<byte>, key: seq<byte>)
    requires key != []
  {
    && decoded.Some? && |decoded.value| > |text| + 1
    && (forall i :: 0 <= i <= |text| ==>
          decoded.value[i] == (Vector(([|text| % 256] + text)[i]) ^ Vector(key[i % |key|])) as int)
    && decoded.value[|text| + 1] == Sum(text) % 100
  }

  lemma ChecksumAppended(text: seq<byte>, key: seq<byte>)
    requires key != []
    ensures Hex.Encode(Cipher(Prefixed(text), 0, key)) + Hex.Pair(Control(text)) == Hex.Encode(Body(text, key))
  {
    hide Cipher, Prefixed, Control, Hex.Encode;
    var cn := Control(text);
    Hex.EncodeConcat(Cipher(Prefixed(text), 0, key), [cn]);
    Hex.EncodeCons(cn, []);
    assert [cn] + [] == [cn];
  }

  method EncXOR(str1: seq<byte>, str2: seq<byte>) returns (result: seq<byte>, ghost salt: seq<byte>)
    requires str2 != []  // the source divides by the length of the key
    ensures IsRandomString(salt, SaltLength(str1, str2))
    ensures result == Encrypted(str1, str2, salt)
    ensures |result| % 2 == 0 && |result| >= 48
    ensures Ascii(str1) && |str1| <= 127 ==> IsMasked(Hex.Decode(result), str1, str2)
    ensures Ascii(str1) && |str1| <= 127 ==> Decrypted(result, str2) == Answer(str1, true)
  {
    hide *;
    var cn := ControlNum(str1);
    var s := EncodeRune(LengthRune(|str1|)) + str1;
    var i, rest := 0, s;
    result := [];
    assert [] + Hex.Encode(Cipher(s, 0, str2)) == Hex.Encode(Cipher(s, 0, str2));
    while rest != []
      invariant result + Hex.Encode(Cipher(rest, i, str2)) == Hex.Encode(Cipher(s, 0, str2))
      decreases |rest|
    {
      var (b, width) := DecodeRune(rest);
      CipherRuns(result, rest, i, str2);
      var c := Xor(b % 256, KeyAt(str2, i));
      result := result + Hex.Pair(c);
      i, rest := i + width, rest[width..];
    }
    CipherEnds(i, str2);
    assert result + [] == result;
    result := result + Hex.Pair(cn);
    ChecksumAppended(str1, str2);
    BodyEncoded(str1, str2);
    assert result == Hex.Encode(Body(str1, str2));
    salt := [];
    if |result| < MAX_ENC_PASS {
      var padding := RandomString(MAX_ENC_PASS - |result|);
      salt := padding;
      result := result + Hex.Encode(padding);
    }
    SaltIsLong(salt, SaltLength(str1, str2));
    Hex.EncodeConcat(Body(str1, str2), salt);
    Hex.EncodeNil();
    EncryptedIs(str1, str2, salt);
    assert result + [] == result;
    EncryptedKeeps(str1, str2, salt);
  }

  // One turn of the loop: the next character under the key at its offset.
  lemma CipherRuns(result: seq<byte>, rest: seq<byte>, i: nat, key: seq<byte>)
    requires key != [] && rest != []
    ensures var (b, width) := DecodeRune(rest);
            result + Hex.Encode(Cipher(rest, i, key))
            == result + Hex.Pair(Xor(b % 256, KeyAt(key, i))) + Hex.Encode(Cipher(rest[width..], i + width, key))
  {
    hide *;
    var (b, width) := DecodeRune(rest);
    CipherRune(rest, i, key);
    Hex.EncodeCons(Xor(b % 256, KeyAt(key, i)), Cipher(rest[width..], i + width, key));
    var digits, more := Hex.Pair(Xor(b % 256, KeyAt(key, i))), Hex.Encode(Cipher(rest[width..], i + width, key));
    assert result + (digits + more) == result + digits + more;
  }

  lemma CipherRune(rest: seq<byte>, i: nat, key: seq<byte>)
    requires key != [] && rest != []
    ensures var (b, width) := DecodeRune(rest);
            Cipher(rest, i, key) == [Xor(b % 256, KeyAt(key, i))] + Cipher(rest[width..], i + width, key)
  {
    hide Xor, KeyAt, DecodeRune;
  }

  lemma CipherEnds(i: nat, key: seq<byte>)
    requires key != []
    ensures Hex.Encode(Cipher([], i, key)) == []
  {
  }

  lemma SaltIsLong(salt: seq<byte>, l: nat)
    ensures IsRandomString([], 0) && (IsRandomString(salt, l) ==> |salt| == l)
  {
  }

  // How much salt a body needs, in terms of its digits.
  lemma BodyEncoded(text: seq<byte>, key: seq<byte>)
    requires key != []
    ensures Prefixed(text) == EncodeRune(LengthRune(|text|)) + text
    ensures var n := |Hex.Encode(Body(text, key))|;
            SaltLength(text, key) == if n < MAX_ENC_PASS then MAX_ENC_PASS - n else 0
  {
    hide Body, EncodeRune, Hex.Encode;
  }

  lemma EncryptedIs(text: seq<byte>, key: seq<byte>, salt: seq<byte>)
    requires key != []
    ensures Encrypted(text, key, salt) == Hex.Encode(Body(text, key) + salt)
  {
  }

  // ---------------------------------------------------------------- decoding

  // A panic stands for an index out of range or a division by zero.
  datatype Decryption = Panic | Answer(text: seq<byte>, ok: bool)

  // `string(c)` of a byte of 128 or more takes two bytes.
  function Widened(d: seq<byte>, offset: nat, key: seq<byte>): (s: seq<byte>)
    requires key != []
    ensures |d| <= |s|
    ensures d != [] ==> s[0] < 0xC4
  {
    if d == [] then [] else EncodeRune(Xor(d[0], KeyAt(key, offset))) + Widened(d[1..], offset + 1, key)
  }

  function Decrypted(str1: seq<byte>, str2: seq<byte>): (r: Decryption)
    ensures r.Answer? && !r.ok ==> r.text == str1
  {
    match Hex.Decode(str1)
    case None => Answer(str1, false)
    case Some(decoded) =>
      if decoded == [] || str2 == [] then Panic else
      var result := Widened(decoded, 0, str2);
      var n: nat := result[0] + 1;
      if |decoded| < n then Answer(str1, false)
      else if |decoded| == n then Panic
      else if Control(result[1..n]) == decoded[n] then Answer(result[1..n], true)
      else Answer(str1, false)
  }

  lemma WidenedNext(d: seq<byte>, i: nat, key: seq<byte>)
    requires key != [] && i < |d|
    ensures Widened(d[i..], i, key) == EncodeRune(Xor(d[i], KeyAt(key, i))) + Widened(d[i + 1..], i + 1, key)
  {
    hide Xor, KeyAt, EncodeRune;
    assert d[i..][1..] == d[i + 1..];
  }

  lemma WidenedEnds(d: seq<byte>, key: seq<byte>)
    ensures key != [] ==> Widened([], |d|, key) == [] && d[0..] == d
  {
  }

  // The characters under a cyclic mask.
  function Unmasked(d: seq<byte>, key: seq<byte>): (rs: seq<rune>)
    requires key != []
    ensures |rs| == |d|
  {
    seq(|d|, i requires 0 <= i < |d| => (Vector(d[i]) ^ Vector(key[i % |key|])) as int)
  }

  lemma {:induction false} WidenedIsUnmasked(d: seq<byte>, key: seq<byte>, i: nat)
    requires key != [] && i <= |d|
    ensures Widened(d[i..], i, key) == Encode(Unmasked(d, key)[i..])
    decreases |d| - i
  {
    hide Xor, KeyAt, Vector, EncodeRune;
    if i < |d| {
      WidenedNext(d, i, key);
      WidenedIsUnmasked(d, key, i + 1);
      KeyByte(d[i], key, i);
      assert Unmasked(d, key)[i..][1..] == Unmasked(d, key)[i + 1..];
    }
  }

  /**
   What is read: the decoded bytes are unmasked and written as UTF-8; the first byte of that says how many
   follow, and the decoded byte at that index is the checksum.
   */
  lemma DecryptedExactly(str1: seq<byte>, key: seq<byte>)
    requires key != []
    ensures match Hex.Decode(str1)
            case None => Decrypted(str1, key) == Answer(str1, false)
            case Some(d) =>
              if d == [] then Decrypted(str1, key).Panic? else
              var result := Encode(Unmasked(d, key));
              && result != []
              && var n: nat := result[0] + 1;
                 Decrypted(str1, key)
                 == if n > |d| then Answer(str1, false)
                    else if n == |d| then Panic
                    else if n <= |result| && Sum(Runes(result[1..n])) % 100 == d[n] then Answer(result[1..n], true)
                    else Answer(str1, false)
  {
    hide Xor, KeyAt, Vector, Unmasked, Widened, Sum, Runes, Hex.Decode, Encode;
    if Hex.Decode(str1).Some? && Hex.Decode(str1).value != [] {
      var d := Hex.Decode(str1).value;
      WidenedIsUnmasked(d, key, 0);
      assert d[0..] == d && Unmasked(d, key)[0..] == Unmasked(d, key);
    }
  }

  method DecXOR(str1: seq<byte>, str2: seq<byte>) returns (r: Decryption)
    ensures r == Decrypted(str1, str2)
  {
    hide Xor, KeyAt, EncodeRune, Control, Hex.Decode, Widened;
    var result: seq<byte> := [];
    match Hex.Decode(str1) {
      case None =>
      case Some(decoded) =>
        if decoded != [] && str2 == [] {
          return Panic;
        }
        var i := 0;
        WidenedEnds(decoded, str2);
        while i < |decoded|
          invariant i <= |decoded|
          invariant str2 == [] ==> result == []
          invariant str2 != [] ==> result + Widened(decoded[i..], i, str2) == Widened(decoded, 0, str2)
        {
          WidenedNext(decoded, i, str2);
          result := result + EncodeRune(Xor(decoded[i], KeyAt(str2, i)));
          i := i + 1;
        }
        assert decoded[i..] == [] && i == |decoded|;
        assert str2 != [] ==> result + [] == Widened(decoded, 0, str2);
        assert result + [] == result;
        if result == [] {
          return Panic;
        }
        // The first byte is below 0xC4, so the addition of two bytes never wraps.
        var n: nat := result[0] as int + 1;
        if n <= |decoded| {
          if n == |decoded| {
            return Panic;
          }
          var cn := decoded[n];
          var text := result[1..n];
          var sum := ControlNum(text);
          if sum == cn {
            return Answer(text, true);
          }
        }
    }
    r := Answer(str1, false);
  }

  // ---------------------------------------------------------------- the two together

  lemma {:induction false} CipherAscii(s: seq<byte>, offset: nat, key: seq<byte>)
    requires key != [] && Ascii(s)
    ensures |Cipher(s, offset, key)| == |s|
    ensures forall i :: 0 <= i < |s| ==> Cipher(s, offset, key)[i] == Xor(s[i], KeyAt(key, offset + i))
  {
    hide Xor, KeyAt, Cipher, Ascii;
    if s != [] {
      CipherAsciiNext(s, offset, key);
      CipherAscii(s[1..], offset + 1, key);
      var tail := Cipher(s[1..], offset + 1, key);
      forall i | 0 <= i < |s| ensures Cipher(s, offset, key)[i] == Xor(s[i], KeyAt(key, offset + i)) {
        if i > 0 { assert tail[i - 1] == Xor(s[1..][i - 1], KeyAt(key, offset + 1 + (i - 1))); }
      }
    } else {
      CipherNil(offset, key);
    }
  }

  lemma CipherNil(offset: nat, key: seq<byte>)
    requires key != []
    ensures Cipher([], offset, key) == []
  {
  }

  lemma CipherAsciiNext(s: seq<byte>, offset: nat, key: seq<byte>)
    requires key != [] && s != [] && Ascii(s)
    ensures Ascii(s[1..]) && s[0] < 0x80
    ensures Cipher(s, offset, key) == [Xor(s[0], KeyAt(key, offset))] + Cipher(s[1..], offset + 1, key)
  {
    hide Xor, KeyAt;
  }

  // As long as the decrypted bytes are ASCII they stand one to one in the widened string.
  lemma {:induction false} WidenedAscii(d: seq<byte>, offset: nat, key: seq<byte>, s: seq<byte>)
    requires key != [] && |s| <= |d| && Ascii(s)
    requires forall i :: 0 <= i < |s| ==> Xor(d[i], KeyAt(key, offset + i)) == s[i]
    ensures s <= Widened(d, offset, key)
  {
    hide Xor, KeyAt;
    if s != [] {
      WidenedAscii(d[1..], offset + 1, key, s[1..]);
    }
  }

  // The decoded bytes of a ciphertext, and the first of them once decrypted.
  lemma FirstDecrypted(text: seq<byte>, key: seq<byte>, salt: seq<byte>)
    requires key != []
    ensures Hex.Decode(Encrypted(text, key, salt)) == Some(Body(text, key) + salt)
    ensures Xor((Body(text, key) + salt)[0], KeyAt(key, 0)) == LengthRune(|text|) % 256
  {
    hide Xor, KeyAt, EncodeRune, DecodeRune;
    Hex.RoundTrip(Body(text, key) + salt);
    DecodeAfterEncode(LengthRune(|text|), text);
    XorCancels(LengthRune(|text|) % 256, KeyAt(key, 0));
  }

  lemma BodyAscii(text: seq<byte>, key: seq<byte>)
    requires key != [] && Ascii(text) && |text| <= 127
    ensures |Body(text, key)| == |text| + 2 && Body(text, key)[|text| + 1] == Control(text)
    ensures forall i :: 0 <= i <= |text| ==> Body(text, key)[i] == Xor(([|text|] + text)[i], KeyAt(key, i))
  {
    hide Xor, KeyAt, Sum;
    assert Prefixed(text) == [|text|] + text;
    CipherAscii([|text|] + text, 0, key);
  }

  // Bytes that decrypt to a length and an ASCII text of that length are accepted when the next byte is its checksum.
  lemma DecryptsTo(d: seq<byte>, key: seq<byte>, text: seq<byte>)
    requires key != [] && Ascii(text) && |text| <= 127 && |text| + 1 < |d|
    requires forall i :: 0 <= i <= |text| ==> Xor(d[i], KeyAt(key, i)) == ([|text|] + text)[i]
    ensures Decrypted(Hex.Encode(d), key)
         == if Control(text) == d[|text| + 1] then Answer(text, true) else Answer(Hex.Encode(d), false)
  {
    hide Xor, KeyAt, Control, Decrypted, Widened, Hex.Encode, Hex.Decode, EncodeRune;
    var s := [|text|] + text;
    WidenedAscii(d, 0, key, s);
    hide Ascii;
    TextBehindLength(Widened(d, 0, key), text);
    DecryptedHex(d, key);
  }

  /** Bytes masked like this are read as the text, or refused for their checksum. */
  lemma MaskedIsRead(str1: seq<byte>, key: seq<byte>, text: seq<byte>)
    requires key != [] && Ascii(text) && |text| <= 127
    requires Hex.Decode(str1).Some? && |Hex.Decode(str1).value| > |text| + 1
    requires forall i :: 0 <= i <= |text| ==>
               Hex.Decode(str1).value[i] == (Vector(([|text|] + text)[i]) ^ Vector(key[i % |key|])) as int
    ensures Decrypted(str1, key)
         == if Hex.Decode(str1).value[|text| + 1] == Sum(text) % 100 then Answer(text, true) else Answer(str1, false)
  {
    hide Xor, KeyAt, Vector, Sum, Runes, Widened, Hex.Decode;
    var d, s := Hex.Decode(str1).value, [|text|] + text;
    forall i | 0 <= i < |s| ensures Xor(d[i], KeyAt(key, i)) == s[i] {
      KeyByte(s[i], key, i);
      XorCancels(s[i], KeyAt(key, i));
    }
    WidenedAscii(d, 0, key, s);
    AsciiRunes(text);
    hide Ascii;
    TextBehindLength(Widened(d, 0, key), text);
  }

  lemma TextBehindLength(result: seq<byte>, text: seq<byte>)
    requires |text| <= 127 && [|text|] + text <= result
    ensures result[0] == |text| && result[1..|text| + 1] == text
  {
    assert result[..|text| + 1][1..] == text;
  }

  // The decryption of the hexadecimal form of some bytes.
  lemma DecryptedHex(d: seq<byte>, key: seq<byte>)
    requires key != [] && d != []
    ensures var result := Widened(d, 0, key);
            var n: nat := result[0] as int + 1;
            Decrypted(Hex.Encode(d), key)
            == if |d| < n then Answer(Hex.Encode(d), false)
               else if |d| == n then Panic
               else if Control(result[1..n]) == d[n] then Answer(result[1..n], true)
               else Answer(Hex.Encode(d), false)
  {
    hide Xor, KeyAt, Control, Widened, Hex.Encode, Hex.Decode;
    Hex.RoundTrip(d);
  }

  /** What is encrypted is decrypted, whatever the padding, for ASCII text of at most 127 bytes. */
  lemma RoundTrip(text: seq<byte>, key: seq<byte>, salt: seq<byte>)
    requires key != [] && Ascii(text) && |text| <= 127
    ensures Decrypted(Encrypted(text, key, salt), key) == Answer(text, true)
  {
    hide Xor, KeyAt, Control, Body, Hex.Encode;
    BodyAscii(text, key);
    var s, d := [|text|] + text, Body(text, key) + salt;
    forall i | 0 <= i < |s| ensures Xor(d[i], KeyAt(key, i)) == s[i] {
      XorCancels(s[i], KeyAt(key, i));
    }
    DecryptsTo(d, key, text);
  }

  /** A stored password is an even number of hexadecimal digits, at least 48 of them. */
  lemma EncryptedShape(text: seq<byte>, key: seq<byte>, salt: seq<byte>)
    requires key != [] && |salt| == SaltLength(text, key)
    ensures |Encrypted(text, key, salt)| % 2 == 0 && |Encrypted(text, key, salt)| >= MAX_ENC_PASS
    ensures Hex.Decode(Encrypted(text, key, salt)).Some?
  {
    hide Body, Hex.Encode, Hex.Decode;
    Hex.RoundTrip(Body(text, key) + salt);
  }

  lemma EncryptedKeeps(text: seq<byte>, key: seq<byte>, salt: seq<byte>)
    requires key != [] && |salt| == SaltLength(text, key)
    ensures |Encrypted(text, key, salt)| % 2 == 0 && |Encrypted(text, key, salt)| >= 48
    ensures Ascii(text) && |text| <= 127 ==>
              && IsMasked(Hex.Decode(Encrypted(text, key, salt)), text, key)
              && Decrypted(Encrypted(text, key, salt), key) == Answer(text, true)
  {
    hide Decrypted, Encrypted, SaltLength, Ascii, IsMasked;
    EncryptedShape(text, key, salt);
    if Ascii(text) && |text| <= 127 {
      RoundTrip(text, key, salt);
      AsciiMasked(text, key, salt);
    }
  }

  lemma {:induction false} CipherAt(s: seq<rune>, offset: nat, key: seq<byte>, i: nat)
    requires key != [] && i < |s|
    ensures |Cipher(Encode(s), offset, key)| == |s|
    ensures Cipher(Encode(s), offset, key)[i] == Xor(s[i] % 256, KeyAt(key, offset + |Encode(s[..i])|))
  {
    hide Xor, KeyAt, Cipher, Runes;
    RunesOfEncode(s);
    CipherNext(s, offset, key);
    if i == 0 {
      assert s[..0] == [];
    } else {
      CipherAt(s[1..], offset + |EncodeRune(s[0])|, key, i - 1);
      assert s[..i][1..] == s[1..][..i - 1];
    }
  }

  lemma CipherNext(s: seq<rune>, offset: nat, key: seq<byte>)
    requires key != [] && s != []
    ensures Cipher(Encode(s), offset, key)
         == [Xor(s[0] % 256, KeyAt(key, offset))] + Cipher(Encode(s[1..]), offset + |EncodeRune(s[0])|, key)
  {
    hide Xor, KeyAt, EncodeRune, DecodeRune;
    DecodeAfterEncode(s[0], Encode(s[1..]));
    assert Encode(s)[|EncodeRune(s[0])|..] == Encode(s[1..]);
  }

  lemma KeyByte(b: byte, key: seq<byte>, i: nat)
    requires key != []
    ensures Xor(b, KeyAt(key, i)) == (Vector(b) ^ Vector(key[i % |key|])) as int
  {
    hide Xor, Vector;
    XorIsCaret(b, key[i % |key|]);
  }

  /**
   What is stored, for any valid text: the length and the characters modulo 256, each masked by the byte of
   the cyclic key at its offset in the UTF-8 text, then the sum modulo 100, then the padding.
   */
  lemma StoredBytes(rs: seq<rune>, key: seq<byte>, salt: seq<byte>)
    requires key != [] && |Encode(rs)| < 0xD800
    ensures Hex.Decode(Encrypted(Encode(rs), key, salt)).Some?
    ensures var d, s := Hex.Decode(Encrypted(Encode(rs), key, salt)).value, [|Encode(rs)| as rune] + rs;
            && |d| == |s| + 1 + |salt| && d[|s| + 1..] == salt
            && (forall i :: 0 <= i < |s| ==>
                  d[i] == (Vector(s[i] % 256) ^ Vector(key[|Encode(s[..i])| % |key|])) as int)
            && d[|s|] == Sum(rs) % 100
  {
    hide Vector, EncodeRune, DecodeRune, Hex.Encode, Hex.Decode, Body, Sum, Encode;
    var text, s := Encode(rs), [|Encode(rs)| as rune] + rs;
    var d := Body(text, key) + salt;
    Hex.RoundTrip(d);
    BodyOf(rs, key);
    forall i | 0 <= i < |s| ensures d[i] == (Vector(s[i] % 256) ^ Vector(key[|Encode(s[..i])| % |key|])) as int {
      BodyAt(rs, key, i);
      assert d[i] == Body(text, key)[i];
    }
    assert d[|s| + 1..] == salt;
  }

  lemma BodyOf(rs: seq<rune>, key: seq<byte>)
    requires key != [] && |Encode(rs)| < 0xD800
    ensures var text, s := Encode(rs), [|Encode(rs)| as rune] + rs;
            && |Body(text, key)| == |s| + 1 && Body(text, key)[|s|] == Sum(rs) % 100
            && Body(text, key)[..|s|] == Cipher(Encode(s), 0, key)
  {
    hide EncodeRune, DecodeRune, Cipher, Sum;
    var text, s := Encode(rs), [|Encode(rs)| as rune] + rs;
    assert s[1..] == rs && Encode(s) == Prefixed(text);
    RunesOfEncode(s);
    RunesOfEncode(rs);
  }

  lemma BodyAt(rs: seq<rune>, key: seq<byte>, i: nat)
    requires key != [] && |Encode(rs)| < 0xD800 && i <= |rs|
    ensures var s := [|Encode(rs)| as rune] + rs;
            && i < |Body(Encode(rs), key)|
            && Body(Encode(rs), key)[i] == (Vector(s[i] % 256) ^ Vector(key[|Encode(s[..i])| % |key|])) as int
  {
    hide Xor, KeyAt, Vector, Body, Cipher, Encode, Sum;
    var s := [|Encode(rs)| as rune] + rs;
    BodyOf(rs, key);
    CipherAt(s, 0, key, i);
    KeyByte(s[i] % 256, key, |Encode(s[..i])|);
    assert Body(Encode(rs), key)[i] == Body(Encode(rs), key)[..|s|][i];
  }

  lemma BodyMasked(text: seq<byte>, key: seq<byte>, i: nat)
    requires key != [] && Ascii(text) && |text| <= 127 && i <= |text|
    ensures |Body(text, key)| == |text| + 2 && Body(text, key)[|text| + 1] == Sum(text) % 100
    ensures Body(text, key)[i] == (Vector(([|text| % 256] + text)[i]) ^ Vector(key[i % |key|])) as int
  {
    hide *;
    var s := [|text| % 256] + text;
    BodyXor(text, key, i);
    KeyByte(s[i], key, i);
  }

  lemma BodyXor(text: seq<byte>, key: seq<byte>, i: nat)
    requires key != [] && Ascii(text) && |text| <= 127 && i <= |text|
    ensures |Body(text, key)| == |text| + 2 && Body(text, key)[|text| + 1] == Sum(text) % 100
    ensures Body(text, key)[i] == Xor(([|text| % 256] + text)[i], KeyAt(key, i))
  {
    hide Xor, KeyAt, Body, Sum, Runes, Ascii;
    assert [|text| % 256] + text == [|text|] + text;
    BodyAscii(text, key);
    AsciiRunes(text);
  }

  lemma AsciiMasked(text: seq<byte>, key: seq<byte>, salt: seq<byte>)
    requires key != [] && Ascii(text) && |text| <= 127
    ensures IsMasked(Hex.Decode(Encrypted(text, key, salt)), text, key)
  {
    hide Vector, Hex.Encode, Hex.Decode, Body, Sum, Ascii;
    var b := Body(text, key);
    Hex.RoundTrip(b + salt);
    BodyMasked(text, key, 0);
    var d := b + salt;
    forall i | 0 <= i <= |text|
      ensures d[i] == (Vector(([|text| % 256] + text)[i]) ^ Vector(key[i % |key|])) as int
    {
      BodyMasked(text, key, i);
      assert d[i] == b[i];
    }
  }

  /** The sum counts every character with its value. */
  lemma {:induction false} SumRepeated(n: nat, v: rune)
    ensures Sum(seq(n, _ => v)) == n * v
  {
    if n > 0 {
      SumRepeated(n - 1, v);
      assert seq(n, _ => v)[1..] == seq(n - 1, _ => v);
    }
  }

  // From 128 bytes on the one-byte length prefix is lost.
  lemma TooLong(rs: seq<rune>, key: seq<byte>, salt: seq<byte>)
    requires key != [] && |Encode(rs)| >= 128
    ensures Decrypted(Encrypted(Encode(rs), key, salt), key) != Answer(Encode(rs), true)
  {
    hide Xor, KeyAt, Control, Body, EncodeRune, Widened, Decrypted, Hex.Encode, Hex.Decode, LengthRune;
    var text := Encode(rs);
    FirstDecrypted(text, key, salt);
    var d := Body(text, key) + salt;
    DecryptedHex(d, key);
    WidenedFirst(d, key);
    assert text[0] == EncodeRune(rs[0])[0];
  }

  // The widening of the first decrypted byte.
  lemma WidenedFirst(d: seq<byte>, key: seq<byte>)
    requires key != [] && d != []
    ensures var c, result := Xor(d[0], KeyAt(key, 0)), Widened(d, 0, key);
            if c < 0x80 then result[0] == c else |result| >= 2 && 0xC2 <= result[0] < 0xC4 && 0x80 <= result[1] < 0xC0
  {
    hide Xor, KeyAt;
    var c := Xor(d[0], KeyAt(key, 0));
    var result := Widened(d, 0, key);
    assert EncodeRune(c) <= result;
    assert result[0] == EncodeRune(c)[0];
    if c >= 0x80 { assert result[1] == EncodeRune(c)[1]; }
  }

  // A non-ASCII character takes fewer cipher bytes than text bytes, so the checksum is looked for in the padding.
  lemma NotAscii(rs: seq<rune>, key: seq<byte>) returns (salt: seq<byte>)
    requires key != [] && |Encode(rs)| <= 127 && !Ascii(Encode(rs))
    ensures IsRandomString(salt, SaltLength(Encode(rs), key))
    ensures Decrypted(Encrypted(Encode(rs), key, salt), key) != Answer(Encode(rs), true)
  {
    hide Xor, KeyAt, Control, EncodeRune, DecodeRune;
    var text := Encode(rs);
    var l := SaltLength(text, key);
    var salt0 := SomeSalt(l);
    if Decrypted(Encrypted(text, key, salt0), key) != Answer(text, true) {
      return salt0;
    }
    var n := |text| + 1;
    BodyLength(rs, key);
    ChecksumPosition(text, key, salt0);
    var j := n - |Body(text, key)|;
    salt := salt0[j := if salt0[j] == 'A' as int then 'B' as int else 'A' as int];
    if Decrypted(Encrypted(text, key, salt), key) == Answer(text, true) {
      ChecksumPosition(text, key, salt);
      assert false;
    }
  }

  // A successful decryption read its checksum right behind as many bytes as the text has.
  lemma ChecksumPosition(text: seq<byte>, key: seq<byte>, salt: seq<byte>)
    requires key != [] && |text| <= 127
    requires Decrypted(Encrypted(text, key, salt), key) == Answer(text, true)
    ensures |text| + 1 < |Body(text, key) + salt|
    ensures (Body(text, key) + salt)[|text| + 1] == Control(text)
  {
    hide Xor, KeyAt, Control, EncodeRune, DecodeRune, Body, Hex.Decode;
    FirstDecrypted(text, key, salt);
    FirstByte(Body(text, key) + salt, key);
  }

  lemma BodyLength(rs: seq<rune>, key: seq<byte>)
    requires key != []
    ensures |Body(Encode(rs), key)| == |rs| + 2
    ensures !Ascii(Encode(rs)) ==> |rs| < |Encode(rs)|
  {
    hide Xor, KeyAt, Control, EncodeRune, DecodeRune;
    var v := LengthRune(|Encode(rs)|);
    assert ([v] + rs)[1..] == rs;
    RunesOfEncode([v] + rs);
    SameLengthOnlyAscii(rs);
  }

  lemma FirstByte(d: seq<byte>, key: seq<byte>)
    requires key != [] && d != [] && Xor(d[0], KeyAt(key, 0)) < 0x80
    ensures Widened(d, 0, key)[0] == Xor(d[0], KeyAt(key, 0))
  {
    hide Xor, KeyAt;
  }

  /**
   Exactly which passwords come back unchanged whatever padding is drawn:
   those of ASCII characters only and of at most 127 of them.
   */
  lemma RoundTripExactly(rs: seq<rune>, key: seq<byte>)
    requires key != []
    ensures (forall salt :: IsRandomString(salt, SaltLength(Encode(rs), key)) ==>
              Decrypted(Encrypted(Encode(rs), key, salt), key) == Answer(Encode(rs), true))
            <==> Ascii(Encode(rs)) && |Encode(rs)| <= 127
  {
    var text := Encode(rs);
    hide *;
    if Ascii(text) && |text| <= 127 {
      forall salt | IsRandomString(salt, SaltLength(text, key))
        ensures Decrypted(Encrypted(text, key, salt), key) == Answer(text, true)
      {
        RoundTrip(text, key, salt);
      }
    } else if |text| <= 127 {
      var salt := NotAscii(rs, key);
    } else {
      var salt := SomeSalt(SaltLength(text, key));
      TooLong(rs, key, salt);
    }
  }

  lemma SomeSalt(l: nat) returns (salt: seq<byte>)
    ensures IsRandomString(salt, l)
  {
    salt := seq(l, _ => 'A' as int);
  }

  // ---------------------------------------------------------------- damage and foreign keys

  lemma {:induction false} SumUpdate(s: seq<rune>, j: nat, y: rune)
    requires j < |s|
    ensures Sum(s[j := y]) == Sum(s) - s[j] + y
  {
    if j > 0 {
      assert s[j := y][1..] == s[1..][j - 1 := y];
      SumUpdate(s[1..], j - 1, y);
    } else {
      assert s[j := y][1..] == s[1..];
    }
  }

  lemma ControlUpdate(s: seq<byte>, j: nat, y: byte)
    requires j < |s| && Ascii(s) && y < 0x80
    ensures Control(s[j := y]) == Control(s) <==> y - s[j] in {-100, 0, 100}
  {
    hide Sum, Runes;
    AsciiRunes(s);
    AsciiRunes(s[j := y]);
    SumUpdate(s, j, y);
    SameModulo100(Sum(s), s[j], y);
  }

  lemma SameModulo100(sum: int, x: int, y: int)
    requires 0 <= x < 0x80 && 0 <= y < 0x80
    ensures (sum - x + y) % 100 == sum % 100 <==> y - x in {-100, 0, 100}
  {
  }

  // One byte changed in transit or on disk.
  function Damage(bytes: seq<byte>, i: nat, x: byte): (s: seq<byte>) {
    if i < |bytes| then bytes[i := x] else bytes
  }

  /**
   Replace one encrypted character by another that decrypts to an ASCII character `y`: the checksum
   reports it, except when the two characters are congruent modulo 100, and then `y` is delivered.
   */
  lemma ChecksumDetects(text: seq<byte>, key: seq<byte>, salt: seq<byte>, j: nat, x: byte)
    requires key != [] && Ascii(text) && |text| <= 127 && j < |text|
    requires Xor(x, KeyAt(key, j + 1)) < 0x80
    ensures var damaged := Hex.Encode(Damage(Body(text, key) + salt, j + 1, x));
            var y := Xor(x, KeyAt(key, j + 1));
            Decrypted(damaged, key)
            == if y - text[j] in {-100, 0, 100} then Answer(text[j := y], true) else Answer(damaged, false)
  {
    hide Xor, KeyAt, Control, Body, Hex.Encode;
    BodyAscii(text, key);
    var y := Xor(x, KeyAt(key, j + 1));
    var s, d := [|text|] + text[j := y], (Body(text, key) + salt)[j + 1 := x];
    forall i | 0 <= i < |s| ensures Xor(d[i], KeyAt(key, i)) == s[i] {
      XorCancels(([|text|] + text)[i], KeyAt(key, i));
    }
    DecryptsTo(d, key, text[j := y]);
    ControlUpdate(text, j, y);
  }

  /**
   A password read under another Pid runs past the end of the decoded bytes exactly when the first
   characters of the two Pids turn its length into one less than the number of these bytes, as an ASCII
   character; otherwise the source gets its answer.
   */
  lemma UnderOtherPid(text: seq<byte>, key: seq<byte>, salt: seq<byte>, other: seq<byte>)
    requires key != [] && other != []
    requires Ascii(text) && |text| <= 127 && IsRandomString(salt, SaltLength(text, key))
    ensures Decrypted(Encrypted(text, key, salt), other).Panic?
            <==> Xor(Xor(|text|, key[0]), other[0]) == |text| + 1 + SaltLength(text, key) < 0x80
  {
    hide Xor, Hex.Encode, Control, Body, Widened, Decrypted;
    BodyAscii(text, key);
    FirstDecrypted(text, key, salt);
    var d := Body(text, key) + salt;
    assert d[0] == Xor(|text|, KeyAt(key, 0)) && |d| == |text| + 2 + SaltLength(text, key);
    DecryptedHex(d, other);
    WidenedFirst(d, other);
  }

  /** For the six characters of a generated password the other length is 39. */
  lemma GeneratedUnderOtherPid(text: seq<byte>, key: seq<byte>, salt: seq<byte>, other: seq<byte>)
    requires key != [] && other != []
    requires Ascii(text) && |text| == 6 && IsRandomString(salt, SaltLength(text, key))
    ensures Decrypted(Encrypted(text, key, salt), other).Panic? <==> Xor(Xor(6, key[0]), other[0]) == 39
  {
    hide Xor, Control, Body, Decrypted, Encrypted;
    BodyAscii(text, key);
    UnderOtherPid(text, key, salt, other);
  }
}
