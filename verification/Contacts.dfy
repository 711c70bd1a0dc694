/**
 The contact list is JSON inside a JSON message. It is percent-encoded as a path segment (section 2.1 of
 RFC 3986), which is what keeps its braces out of the frame (internal/pkg/processor/handlers.go).
 */
module Contacts {
  import opened Wrappers
  import opened Utf8
  import opened Framing
  import Hex
  import Codec = MessageCodec
  import opened InsideOut
  import opened MessageStream

  const PERCENT: byte := '%' as int
  const LOCAL_CONTACTS := 29

  predicate IsPlain(b: byte) {
    || 'a' as int <= b <= 'z' as int || 'A' as int <= b <= 'Z' as int || '0' as int <= b <= '9' as int
    || b == '-' as int || b == '_' as int || b == '.' as int || b == '~' as int
    || b == '$' as int || b == '&' as int || b == '+' as int || b == ':' as int || b == '=' as int || b == '@' as int
  }

  function UpperDigit(n: int): (d: byte)
    requires 0 <= n < 16
    ensures Hex.Value(d) == Some(n) && d != CLOSE && d < 0x80
  {
    if n < 10 then '0' as int + n else 'A' as int + n - 10
  }

  function EscapeByte(b: byte): (s: seq<byte>) {
    if IsPlain(b) then [b] else [PERCENT, UpperDigit(b / 16), UpperDigit(b % 16)]
  }

  function PathEscape(s: seq<byte>): (r: seq<byte>) {
    if s == [] then [] else EscapeByte(s[0]) + PathEscape(s[1..])
  }

  /** A percent sign without two hexadecimal digits is an error. */
  function PathUnescape(s: seq<byte>): (r: Option<seq<byte>>) {
    if s == [] then Some([])
    else if s[0] != PERCENT then
      match PathUnescape(s[1..])
      case Some(rest) => Some([s[0]] + rest)
      case None => None
    else if |s| < 3 then None
    else
      match (Hex.Value(s[1]), Hex.Value(s[2]), PathUnescape(s[3..]))
      case (Some(hi), Some(lo), Some(rest)) => Some([Hex.Join(hi, lo)] + rest)
      case _ => None
  }

  /** Letters, digits and `-_.~$&+:=@` stand for themselves, every other byte is a percent sign and two digits. */
  lemma EscapeForms(b: byte)
    ensures var kept := 'a' as int <= b <= 'z' as int || 'A' as int <= b <= 'Z' as int || '0' as int <= b <= '9' as int
                        || b in {45, 95, 46, 126, 36, 38, 43, 58, 61, 64};
            EscapeByte(b) == if kept then [b] else
              [37, "0123456789ABCDEF"[b / 16] as int, "0123456789ABCDEF"[b % 16] as int]
  {
    UpperSpelled(b / 16);
    UpperSpelled(b % 16);
  }

  lemma UpperSpelled(n: int)
    requires 0 <= n < 16
    ensures UpperDigit(n) == "0123456789ABCDEF"[n] as int
  {
  }

  lemma UnescapeByte(b: byte, rest: seq<byte>)
    ensures PathUnescape(EscapeByte(b) + rest)
         == match PathUnescape(rest) case Some(t) => Some([b] + t) case None => None
  {
    var s := EscapeByte(b) + rest;
    if IsPlain(b) {
      assert s[1..] == rest;
    } else {
      assert s[3..] == rest && s[1] == UpperDigit(b / 16) && s[2] == UpperDigit(b % 16);
      assert Hex.Join(b / 16, b % 16) == b;
    }
  }

  lemma {:induction false} EscapeRoundTrip(s: seq<byte>)
    ensures PathUnescape(PathEscape(s)) == Some(s)
  {
    hide EscapeByte;
    if s != [] {
      UnescapeByte(s[0], PathEscape(s[1..]));
      EscapeRoundTrip(s[1..]);
      assert [s[0]] + s[1..] == s;
    }
  }

  lemma {:induction false} EscapedIsPlain(s: seq<byte>)
    ensures Free(PathEscape(s), CLOSE) && Ascii(PathEscape(s))
  {
    if s != [] {
      EscapedIsPlain(s[1..]);
    }
  }

  /** The message that carries a contact list. */
  function ContactsMessage(json: seq<byte>): (m: Codec.Message) {
    Codec.Message(LOCAL_CONTACTS, [Runes(PathEscape(json))])
  }

  lemma ContactsClean(json: seq<byte>)
    ensures Clean(ContactsMessage(json))
    ensures ContactsMessage(json).tMessage == 29 && |ContactsMessage(json).messages| == 1
    ensures PathUnescape(Utf8.Encode(ContactsMessage(json).messages[0])) == Some(json)
  {
    hide PathEscape, PathUnescape, Runes;
    EscapedIsPlain(json);
    AsciiRunes(PathEscape(json));
    EscapeRoundTrip(json);
    AsciiEncode(PathEscape(json));
  }

  /**
   Whatever the contacts contain, the message that carries them is delivered, among any others and whatever
   becomes of those, and unpacks to them.
   */
  lemma ContactsArrive(before: seq<Codec.Message>, json: seq<byte>, after: seq<Codec.Message>)
    ensures var m := ContactsMessage(json);
            && m.tMessage == 29 && |m.messages| == 1
            && Delivered(Codec.Decode, Stream(Codec.Encode, before + [m] + after))
               == AllArriving(before) + [m] + AllArriving(after)
            && PathUnescape(Utf8.Encode(m.messages[0])) == Some(json)
  {
    hide *;
    var m := ContactsMessage(json);
    ContactsClean(json);
    ExactDelivery(before + [m] + after);
    ArrivingAmong(before, m, after);
  }

  lemma ArrivingAmong(before: seq<Codec.Message>, m: Codec.Message, after: seq<Codec.Message>)
    requires Clean(m)
    ensures AllArriving(before + [m] + after) == AllArriving(before) + [m] + AllArriving(after)
  {
    hide *;
    ArrivingConcat(before, [m] + after);
    assert before + [m] + after == before + ([m] + after);
    ArrivingFirst(m, after);
    assert AllArriving(before) + ([m] + AllArriving(after)) == AllArriving(before) + [m] + AllArriving(after);
  }

  lemma ArrivingFirst(m: Codec.Message, after: seq<Codec.Message>)
    requires Clean(m)
    ensures AllArriving([m] + after) == [m] + AllArriving(after)
  {
    hide Clean;
    assert ([m] + after)[1..] == after;
  }

  lemma {:induction false} AsciiEncode(s: seq<byte>)
    requires Ascii(s)
    ensures Utf8.Encode(s) == s
  {
    if s != [] {
      AsciiEncode(s[1..]);
    }
  }

  lemma {:induction false} ArrivingConcat(a: seq<Codec.Message>, b: seq<Codec.Message>)
    ensures AllArriving(a + b) == AllArriving(a) + AllArriving(b)
  {
    hide Arriving;
    if a == [] {
      assert a + b == b;
    } else {
      assert (a + b)[1..] == a[1..] + b && (a + b)[0] == a[0];
      ArrivingConcat(a[1..], b);
    }
  }

  // A percent sign in front without two hexadecimal digits behind it.
  predicate StartsBroken(s: seq<byte>) {
    s != [] && s[0] == PERCENT && (|s| < 3 || Hex.Value(s[1]).None? || Hex.Value(s[2]).None?)
  }

  predicate IsBroken(s: seq<byte>) {
    exists i :: 0 <= i < |s| && StartsBroken(s[i..])
  }

  // No digit is a percent sign, so the two behind one need not be looked at.
  lemma BrokenBehind(s: seq<byte>, k: nat)
    requires k <= |s| && forall i :: 0 <= i < k ==> !StartsBroken(s[i..])
    ensures IsBroken(s) <==> IsBroken(s[k..])
  {
    hide StartsBroken;
    if IsBroken(s[k..]) {
      var j :| 0 <= j < |s[k..]| && StartsBroken(s[k..][j..]);
      assert s[k..][j..] == s[k + j..];
    }
    if IsBroken(s) {
      var i :| 0 <= i < |s| && StartsBroken(s[i..]);
      assert s[i..] == s[k..][i - k..];
    }
  }

  /** Decoding fails exactly when a percent sign is not followed by two hexadecimal digits. */
  lemma {:induction false} UnescapeFails(s: seq<byte>)
    ensures PathUnescape(s).None? <==> IsBroken(s)
  {
    if s == [] || StartsBroken(s) {
      assert s[0..] == s;
    } else {
      assert s[0..] == s && Hex.Value(PERCENT).None?;
      var k := if s[0] != PERCENT then 1 else 3;
      hide IsBroken;
      UnescapeFails(s[k..]);
      forall i | 0 <= i < k ensures !StartsBroken(s[i..]) { assert s[i..][0] == s[i]; }
      BrokenBehind(s, k);
    }
  }
}
