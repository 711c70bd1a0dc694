/**
 JSON text as a list of tokens (sections 2 to 7 of RFC 8259). A character sequence is a token list or an
 error; which lists make a message is for the parser to say.
 */
module JsonTokens {
  import opened Wrappers
  import opened Utf8
  import opened Framing
  import Hex

  type int64 = n: int | -0x8000_0000_0000_0000 <= n < 0x8000_0000_0000_0000

  const QUOTE: byte := '\"' as int
  const BACKSLASH: byte := '\\' as int
  const COLON: byte := ':' as int
  const COMMA: byte := ',' as int
  const START_LIST: byte := '[' as int
  const END_LIST: byte := ']' as int
  const MINUS: byte := '-' as int
  const SPACE: byte := ' ' as int

  // A number that is no 64-bit integer is a token all the same.
  datatype Token =
    | Open | Close | OpenList | CloseList | Colon | Comma
    | Text(text: seq<rune>) | Num(value: Option<int64>) | Bool | Null

  // ---------------------------------------------------------------- strings

  // The value of `\uXXXX` at the front of `s`, if that is what stands there.
  function Unit16(s: seq<byte>): (u: Option<int>)
    ensures u.Some? ==> 0 <= u.value < 0x10000 && |s| >= 6 && s[0] == BACKSLASH && s[1] == 'u' as int
    ensures u.Some? ==> forall i :: 2 <= i < 6 ==> Hex.Value(s[i]).Some?
  {
    if |s| < 6 || s[0] != BACKSLASH || s[1] != 'u' as int then None
    else
      match (Hex.Value(s[2]), Hex.Value(s[3]), Hex.Value(s[4]), Hex.Value(s[5]))
      case (Some(a), Some(b), Some(c), Some(d)) => Some(Combine(a, b, c, d))
      case _ => None
  }

  function Combine(a: int, b: int, c: int, d: int): (u: int)
    requires 0 <= a < 16 && 0 <= b < 16 && 0 <= c < 16 && 0 <= d < 16
    ensures 0 <= u < 0x10000
  {
    a * 0x1000 + b * 0x100 + c * 0x10 + d
  }

  // Two escaped surrogates make one character, a lone one is replaced.
  function TakeUnit(s: seq<byte>, u: int): (r: (rune, nat))
    requires Unit16(s) == Some(u)
    ensures r.1 == 6 || (r.1 == 12 && Unit16(s[6..]).Some?)
  {
    if u < 0xD800 || 0xE000 <= u then (u, 6)
    else
      match Unit16(s[6..])
      case Some(v) =>
        if u < 0xDC00 && 0xDC00 <= v < 0xE000 then (0x10000 + (u - 0xD800) * 0x400 + (v - 0xDC00), 12)
        else (REPLACEMENT, 6)
      case None => (REPLACEMENT, 6)
  }

  function ShortEscape(b: byte): (r: Option<rune>) {
    if b == QUOTE || b == BACKSLASH || b == '/' as int then Some(b)
    else if b == 'b' as int then Some(8)
    else if b == 'f' as int then Some(12)
    else if b == 'n' as int then Some(10)
    else if b == 'r' as int then Some(13)
    else if b == 't' as int then Some(9)
    else None
  }

  /** The next character of a string literal and how many bytes it takes. */
  function TakeRune(s: seq<byte>): (r: Option<(rune, nat)>)
    requires s != []
    ensures r.Some? ==> 1 <= r.value.1 <= |s|
    ensures r.Some? && s[0] == OPEN ==> r.value.1 == 1
    ensures r.Some? ==> forall i :: 1 <= i < r.value.1 ==> s[i] != OPEN
  {
    if s[0] == BACKSLASH then
      if |s| >= 2 && ShortEscape(s[1]).Some? then Some((ShortEscape(s[1]).value, 2)) else
      match Unit16(s)
      case None => None
      case Some(u) =>
        assert forall i :: 2 <= i < 6 ==> s[i] != OPEN;
        assert Unit16(s[6..]).Some? ==> forall i :: 6 <= i < 12 ==> s[i] == s[6..][i - 6] && s[i] != OPEN;
        Some(TakeUnit(s, u))
    else if s[0] < 0x20 then None
    else Some(DecodeRune(s))
  }

  /** A string literal after its opening quote. */
  function ParseBody(s: seq<byte>): (r: Option<(seq<rune>, seq<byte>)>)
    ensures r.Some? ==> |r.value.1| < |s|
  {
    if s == [] then None
    else if s[0] == QUOTE then Some(([], s[1..]))
    else
      match TakeRune(s)
      case None => None
      case Some((c, width)) =>
        match ParseBody(s[width..])
        case None => None
        case Some((rs, rest)) => Some(([c] + rs, rest))
  }

  // ---------------------------------------------------------------- words

  predicate IsDigit(b: byte) {
    '0' as int <= b <= '9' as int
  }

  predicate IsExponentSign(b: byte) {
    b == 'e' as int || b == 'E' as int
  }

  // What numbers and literals are made of; two of them never stand side by side.
  predicate IsWordByte(b: byte) {
    || IsDigit(b) || 'a' as int <= b <= 'z' as int || 'A' as int <= b <= 'Z' as int
    || b == MINUS || b == '+' as int || b == '.' as int
  }

  function WordEnd(s: seq<byte>): (k: nat)
    ensures k <= |s| && forall i :: 0 <= i < k ==> IsWordByte(s[i])
    ensures k < |s| ==> !IsWordByte(s[k])
  {
    if s == [] || !IsWordByte(s[0]) then 0 else 1 + WordEnd(s[1..])
  }

  // The number at the front, and what stands behind its digits.
  function Number(s: seq<byte>, acc: nat): (r: (nat, seq<byte>))
    ensures |r.1| <= |s|
  {
    if s != [] && IsDigit(s[0]) then Number(s[1..], acc * 10 + (s[0] - '0' as int)) else (acc, s)
  }

  predicate StartsWithDigit(s: seq<byte>) {
    s != [] && IsDigit(s[0])
  }

  function BehindFraction(s: seq<byte>): (r: Option<seq<byte>>) {
    if s == [] || s[0] != '.' as int then Some(s)
    else if StartsWithDigit(s[1..]) then Some(Number(s[1..], 0).1)
    else None
  }

  predicate IsExponent(s: seq<byte>) {
    || s == []
    || (IsExponentSign(s[0])
        && var t := if |s| >= 2 && (s[1] == '+' as int || s[1] == MINUS) then s[2..] else s[1..];
           StartsWithDigit(t) && Number(t, 0).1 == [])
  }

  const TRUE: seq<byte> := ['t' as int, 'r' as int, 'u' as int, 'e' as int]
  const FALSE: seq<byte> := ['f' as int, 'a' as int, 'l' as int, 's' as int, 'e' as int]
  const NULL: seq<byte> := ['n' as int, 'u' as int, 'l' as int, 'l' as int]

  /** A literal or a number without leading zeros; only a 64-bit number without fraction and exponent has a value. */
  function Classify(word: seq<byte>): (t: Option<Token>)
    ensures t.Some? ==> t.value.Bool? || t.value.Null? || t.value.Num?
  {
    if word == TRUE || word == FALSE then Some(Bool)
    else if word == NULL then Some(Null)
    else
      var negative := word != [] && word[0] == MINUS;
      var t := if negative then word[1..] else word;
      if !StartsWithDigit(t) || (t[0] == '0' as int && StartsWithDigit(t[1..])) then None
      else
        var (v, rest) := Number(t, 0);
        match BehindFraction(rest)
        case None => None
        case Some(exponent) =>
          if !IsExponent(exponent) then None
          else
            var n: int := if negative then -(v as int) else v;
            Some(Num(if rest == [] && -0x8000_0000_0000_0000 <= n < 0x8000_0000_0000_0000 then Some(n) else None))
  }

  // ---------------------------------------------------------------- token lists

  predicate IsSpace(b: byte) {
    b == SPACE || b == 9 || b == 10 || b == 13
  }

  function Sign(b: byte): (t: Option<Token>) {
    if b == OPEN then Some(Open)
    else if b == CLOSE then Some(Close)
    else if b == START_LIST then Some(OpenList)
    else if b == END_LIST then Some(CloseList)
    else if b == COLON then Some(Colon)
    else if b == COMMA then Some(Comma)
    else None
  }

  function Joined(a: Option<seq<Token>>, b: Option<seq<Token>>): (r: Option<seq<Token>>) {
    match (a, b)
    case (Some(x), Some(y)) => Some(x + y)
    case _ => None
  }

  // The token at the front, none for white space, and what stands behind it.
  function FirstToken(s: seq<byte>): (r: Option<(seq<Token>, seq<byte>)>)
    requires s != []
    ensures r.Some? ==> |r.value.1| < |s|
  {
    if IsSpace(s[0]) then Some(([], s[1..]))
    else if Sign(s[0]).Some? then Some(([Sign(s[0]).value], s[1..]))
    else if s[0] == QUOTE then
      match ParseBody(s[1..])
      case None => None
      case Some((rs, rest)) => Some(([Text(rs)], rest))
    else
      var k := WordEnd(s);
      if k == 0 then None else
      match Classify(s[..k])
      case None => None
      case Some(t) => Some(([t], s[k..]))
  }

  /** The tokens of a text. */
  function Lex(s: seq<byte>): (ts: Option<seq<Token>>)
    decreases |s|
  {
    if s == [] then Some([])
    else
      match FirstToken(s)
      case None => None
      case Some((ts, rest)) => Joined(Some(ts), Lex(rest))
  }

  lemma LexSign(b: byte, rest: seq<byte>)
    requires Sign(b).Some?
    ensures Lex([b] + rest) == Joined(Some([Sign(b).value]), Lex(rest))
  {
    assert ([b] + rest)[1..] == rest;
  }

  lemma LexSpace(b: byte, rest: seq<byte>)
    requires IsSpace(b)
    ensures Lex([b] + rest) == Joined(Some([]), Lex(rest))
  {
    assert ([b] + rest)[1..] == rest;
  }

  lemma LexQuote(s: seq<byte>)
    ensures Lex([QUOTE] + s)
         == match ParseBody(s)
            case None => None
            case Some((rs, rest)) => Joined(Some([Text(rs)]), Lex(rest))
  {
    hide ParseBody;
    assert ([QUOTE] + s)[1..] == s;
  }

  lemma {:induction false} WordEndIs(word: seq<byte>, rest: seq<byte>)
    requires forall i :: 0 <= i < |word| ==> IsWordByte(word[i])
    requires rest == [] || !IsWordByte(rest[0])
    ensures WordEnd(word + rest) == |word|
  {
    hide IsWordByte;
    if word == [] {
      assert word + rest == rest;
    } else {
      assert (word + rest)[1..] == word[1..] + rest;
      WordEndIs(word[1..], rest);
    }
  }

  lemma WordStart(b: byte)
    requires IsWordByte(b)
    ensures !IsSpace(b) && Sign(b).None? && b != QUOTE
  {
  }

  lemma LexWord(word: seq<byte>, rest: seq<byte>)
    requires word != [] && forall i :: 0 <= i < |word| ==> IsWordByte(word[i])
    requires rest == [] || !IsWordByte(rest[0])
    ensures Lex(word + rest)
         == match Classify(word) case None => None case Some(t) => Joined(Some([t]), Lex(rest))
  {
    hide IsWordByte, WordEnd, Classify, ParseBody, Sign, IsSpace;
    var s := word + rest;
    WordEndIs(word, rest);
    WordStart(word[0]);
    assert s[0] == word[0] && s[..|word|] == word && s[|word|..] == rest;
  }

  lemma NoToken(s: seq<byte>)
    requires s != [] && !IsSpace(s[0]) && Sign(s[0]).None? && s[0] != QUOTE && !IsWordByte(s[0])
    ensures Lex(s).None?
  {
  }

  lemma JoinedAssoc(a: Option<seq<Token>>, b: Option<seq<Token>>, c: Option<seq<Token>>)
    ensures Joined(Joined(a, b), c) == Joined(a, Joined(b, c))
    ensures Joined(Some([]), a) == a && Joined(a, Some([])) == a
  {
    if a.Some? {
      assert [] + a.value == a.value && a.value + [] == a.value;
      if b.Some? && c.Some? { assert (a.value + b.value) + c.value == a.value + (b.value + c.value); }
    }
  }

  // ---------------------------------------------------------------- the forms spelled out

  /** The short escapes, and what a pair of escaped surrogates and a lone one stand for. */
  lemma EscapesRead(rest: seq<byte>)
    ensures TakeRune([92, 34] + rest) == Some((34, 2)) && TakeRune([92, 92] + rest) == Some((92, 2))
    ensures TakeRune([92, 47] + rest) == Some((47, 2)) && TakeRune([92, 98] + rest) == Some((8, 2))
    ensures TakeRune([92, 102] + rest) == Some((12, 2)) && TakeRune([92, 110] + rest) == Some((10, 2))
    ensures TakeRune([92, 114] + rest) == Some((13, 2)) && TakeRune([92, 116] + rest) == Some((9, 2))
    ensures TakeRune([92, 120] + rest) == None
  {
    hide DecodeRune;
  }

  lemma UnitRead(a: Hex.nibble, b: Hex.nibble, c: Hex.nibble, d: Hex.nibble, rest: seq<byte>)
    ensures Unit16([92, 117, Hex.Digit(a), Hex.Digit(b), Hex.Digit(c), Hex.Digit(d)] + rest)
         == Some(a * 4096 + b * 256 + c * 16 + d)
  {
    hide Hex.Digit;
  }

  // Two code units in the range of the surrogates are one character, half of such a pair is none.
  lemma SurrogatesRead(s: seq<byte>, u: int)
    requires Unit16(s) == Some(u)
    ensures (u < 0xD800 || 0xE000 <= u) ==> TakeRune(s) == Some((u, 6))
    ensures 0xD800 <= u < 0xE000 ==>
              match Unit16(s[6..])
              case Some(v) =>
                if u < 0xDC00 && 0xDC00 <= v < 0xE000 then
                  TakeRune(s) == Some((65536 + (u - 55296) * 1024 + (v - 56320), 12))
                else TakeRune(s) == Some((65533, 6))
              case None => TakeRune(s) == Some((65533, 6))
  {
    hide DecodeRune;
  }

  lemma OneDigit(d: byte, rest: seq<byte>)
    requires IsDigit(d) && !StartsWithDigit(rest)
    ensures Number([d] + rest, 0) == (d - 48, rest) && StartsWithDigit([d] + rest)
  {
    assert ([d] + rest)[1..] == rest;
  }

  /** Numbers: no leading zero and no plus sign, and only an integer has a value. */
  lemma IntegerForms()
    ensures Classify([48]) == Some(Num(Some(0))) && Classify([45, 55]) == Some(Num(Some(-7)))
    ensures Classify([48, 49]) == None && Classify([43, 49]) == None && Classify([45]) == None
  {
    hide Number;
    OneDigit(48, []);
    OneDigit(55, []);
    assert [48] + [] == [48] && [55] + [] == [55];
    assert [45, 55][1..] == [55] && [45][1..] == [] && [48, 49][1..] == [49];
  }

  /** Digits stand on both sides of the point. */
  lemma FractionForms()
    ensures Classify([49, 46, 53]) == Some(Num(None)) && Classify([49, 46]) == None && Classify([46, 53]) == None
  {
    hide Number;
    OneDigit(49, [46, 53]);
    OneDigit(49, [46]);
    OneDigit(53, []);
    assert [49] + [46, 53] == [49, 46, 53] && [49] + [46] == [49, 46] && [53] + [] == [53];
    assert [46, 53][1..] == [53] && [46][1..] == [];
  }

  /** And behind the sign of an exponent. */
  lemma ExponentForms()
    ensures Classify([49, 101, 53]) == Some(Num(None)) && Classify([49, 69, 45, 53]) == Some(Num(None))
    ensures Classify([49, 101]) == None
  {
    hide Number;
    OneDigit(49, [101, 53]);
    OneDigit(49, [69, 45, 53]);
    OneDigit(49, [101]);
    OneDigit(53, []);
    assert [49] + [101, 53] == [49, 101, 53] && [49] + [69, 45, 53] == [49, 69, 45, 53] && [49] + [101] == [49, 101];
    assert [53] + [] == [53] && [101, 53][1..] == [53] && [69, 45, 53][2..] == [53] && [101][1..] == [];
  }

  /** The three literals are in small letters. */
  lemma LiteralForms()
    ensures Classify([116, 114, 117, 101]) == Some(Bool) && Classify([102, 97, 108, 115, 101]) == Some(Bool)
    ensures Classify([110, 117, 108, 108]) == Some(Null) && Classify([84, 114, 117, 101]) == None
  {
  }
}
