/** Two lower-case digits per byte, as `%.2x` and `encoding/hex` write them; either case is read back. */
module Hex {
  import opened Wrappers
  import opened Utf8

  type nibble = x: int | 0 <= x < 16

  function Digit(n: nibble): (d: byte)
    ensures Value(d) == Some(n)
  {
    if n < 10 then '0' as int + n else 'a' as int + n - 10
  }

  function Value(d: byte): (v: Option<nibble>) {
    if '0' as int <= d <= '9' as int then Some(d - '0' as int)
    else if 'a' as int <= d <= 'f' as int then Some(d - 'a' as int + 10)
    else if 'A' as int <= d <= 'F' as int then Some(d - 'A' as int + 10)
    else None
  }

  function Join(hi: int, lo: int): (b: byte)
    requires 0 <= hi < 16 && 0 <= lo < 16
  {
    hi * 16 + lo
  }

  function Pair(b: byte): (s: seq<byte>)
    ensures |s| == 2
  {
    [Digit(b / 16), Digit(b % 16)]
  }

  function Encode(bytes: seq<byte>): (s: seq<byte>)
    ensures |s| == 2 * |bytes|
    ensures forall i :: 0 <= i < |s| ==> Value(s[i]).Some?
  {
    if bytes == [] then [] else Pair(bytes[0]) + Encode(bytes[1..])
  }

  /** An odd length or a foreign character is an error. */
  function Decode(s: seq<byte>): (r: Option<seq<byte>>)
    ensures r.Some? ==> |s| == 2 * |r.value|
  {
    if s == [] then Some([])
    else if |s| == 1 then None
    else
      match (Value(s[0]), Value(s[1]), Decode(s[2..]))
      case (Some(hi), Some(lo), Some(rest)) => Some([Join(hi, lo)] + rest)
      case _ => None
  }

  lemma {:induction false} RoundTrip(bytes: seq<byte>)
    ensures Decode(Encode(bytes)) == Some(bytes)
  {
    if bytes != [] {
      var s := Encode(bytes);
      assert s[0] == Digit(bytes[0] / 16) && s[1] == Digit(bytes[0] % 16);
      assert Join(bytes[0] / 16, bytes[0] % 16) == bytes[0];
      assert s[2..] == Encode(bytes[1..]);
      RoundTrip(bytes[1..]);
      assert [bytes[0]] + bytes[1..] == bytes;
    }
  }

  lemma EncodeCons(b: byte, rest: seq<byte>)
    ensures Encode([b] + rest) == Pair(b) + Encode(rest)
    ensures Encode([]) == []
  {
    assert ([b] + rest)[1..] == rest;
  }

  lemma EncodeNil()
    ensures Encode([]) == []
  {
  }

  lemma {:induction false} EncodeConcat(a: seq<byte>, b: seq<byte>)
    ensures Encode(a + b) == Encode(a) + Encode(b)
  {
    if a == [] {
      assert a + b == b;
    } else {
      assert (a + b)[1..] == a[1..] + b;
      EncodeConcat(a[1..], b);
    }
  }

  /** Decoding fails exactly on an odd length or a character that is no hexadecimal digit. */
  lemma {:induction false} DecodeFails(s: seq<byte>)
    ensures Decode(s).None? <==> |s| % 2 == 1 || exists i :: 0 <= i < |s| && Value(s[i]).None?
  {
    if |s| >= 2 {
      DecodeFails(s[2..]);
      if i :| 0 <= i < |s| && Value(s[i]).None? {
        if i >= 2 { assert Value(s[2..][i - 2]).None?; }
      }
    }
  }

  const DIGITS := "0123456789abcdef"

  lemma DigitSpelled(n: nibble)
    ensures Digit(n) == DIGITS[n] as int
  {
  }

  /** The two digits of a byte, high one first. */
  lemma {:induction false} EncodedDigits(bytes: seq<byte>, i: nat)
    requires i < |bytes|
    ensures Encode(bytes)[2 * i] == "0123456789abcdef"[bytes[i] / 16] as int
    ensures Encode(bytes)[2 * i + 1] == "0123456789abcdef"[bytes[i] % 16] as int
  {
    hide Digit;
    if i == 0 {
      DigitSpelled(bytes[0] / 16);
      DigitSpelled(bytes[0] % 16);
    } else {
      EncodedDigits(bytes[1..], i - 1);
    }
  }
}
