/**
 The JSON text of a message as the writer produces it, and the reader's decoder
 (internal/pkg/processor/common.go, main.go). The reader hands on texts whose only `}` is their last byte;
 an object inside such a text would need a second one, so values are strings, numbers, literals and lists.
 */
module MessageCodec {
  import opened Wrappers
  import opened Utf8
  import opened Framing
  import opened JsonTokens
  import Hex

  datatype Message = Message(tMessage: int64, messages: seq<seq<rune>>)

  const EMPTY := Message(0, [])

  // TMessage
  const NUMBER_KEY: seq<rune> := [84, 77, 101, 115, 115, 97, 103, 101]
  // Messages
  const STRINGS_KEY: seq<rune> := [77, 101, 115, 115, 97, 103, 101, 115]

  // ---------------------------------------------------------------- writer

  function Digits(n: nat): (s: seq<byte>)
    ensures s != [] && forall i :: 0 <= i < |s| ==> IsDigit(s[i])
    ensures s[0] == '0' as int ==> n == 0 && |s| == 1
  {
    if n < 10 then ['0' as int + n] else Digits(n / 10) + ['0' as int + n % 10]
  }

  function EncodeInt(n: int): (s: seq<byte>)
    ensures s != [] && forall i :: 0 <= i < |s| ==> s[i] == MINUS || IsDigit(s[i])
  {
    if n < 0 then [MINUS] + Digits(-n) else Digits(n)
  }

  function HexDigit(n: int): (b: byte)
    requires 0 <= n < 16
    ensures Hex.Value(b) == Some(n)
  {
    Hex.Digit(n)
  }

  // Angle brackets, the ampersand and the two line separators are escaped for the sake of HTML and JavaScript.
  function Escape(r: rune): (s: seq<byte>)
    ensures s != []
  {
    if r == QUOTE || r == BACKSLASH then [BACKSLASH, r]
    else if r == 10 then [BACKSLASH, 'n' as int]
    else if r == 13 then [BACKSLASH, 'r' as int]
    else if r == 9 then [BACKSLASH, 't' as int]
    else if r < 0x20 || r == '<' as int || r == '>' as int || r == '&' as int then
      [BACKSLASH, 'u' as int, '0' as int, '0' as int, HexDigit(r / 16), HexDigit(r % 16)]
    else if r == 0x2028 || r == 0x2029 then
      [BACKSLASH, 'u' as int, '2' as int, '0' as int, '2' as int, HexDigit(r % 16)]
    else EncodeRune(r)
  }

  function EncodeBody(rs: seq<rune>): (s: seq<byte>) {
    if rs == [] then [] else Escape(rs[0]) + EncodeBody(rs[1..])
  }

  function EncodeString(rs: seq<rune>): (s: seq<byte>) {
    [QUOTE] + EncodeBody(rs) + [QUOTE]
  }

  function EncodeList(strings: seq<seq<rune>>): (s: seq<byte>) {
    if strings == [] then []
    else if |strings| == 1 then EncodeString(strings[0])
    else EncodeString(strings[0]) + [COMMA] + EncodeList(strings[1..])
  }

  // Everything in front of the list of strings.
  function Front(n: int64): (s: seq<byte>) {
    [OPEN] + EncodeString(NUMBER_KEY) + [COLON] + EncodeInt(n)
    + [COMMA] + EncodeString(STRINGS_KEY) + [COLON, START_LIST]
  }

  function Encode(m: Message): (s: seq<byte>) {
    Front(m.tMessage) + EncodeList(m.messages) + [END_LIST, CLOSE]
  }

  // ---------------------------------------------------------------- decoder

  datatype Field = NumberField | StringsField | Unknown

  // Letters match in either case, and the long s matches an s.
  function Folded(r: rune): (f: rune) {
    if 'A' as int <= r <= 'Z' as int then r + 32 else if r == 0x17F then 's' as int else r
  }

  predicate Matches(key: seq<rune>, name: seq<rune>) {
    |key| == |name| && forall i :: 0 <= i < |key| ==> Folded(key[i]) == Folded(name[i])
  }

  function FieldOf(key: seq<rune>): (f: Field) {
    if Matches(key, NUMBER_KEY) then NumberField else if Matches(key, STRINGS_KEY) then StringsField else Unknown
  }

  datatype Place = Start | KeyOrEnd | Key | BehindKey | Value | ValueOrEnd | BehindValue | End | Failed

  /** `depth` is the number of lists that are open. */
  datatype Parser = Parser(place: Place, depth: nat, field: Field, message: Message)

  const INITIAL := Parser(Start, 0, Unknown, EMPTY)

  // Nesting the decoder gives up at, the object included.
  const MAX_DEPTH := 10000

  // A value that is no list. The wrong type for a field is an error; null leaves a number alone and empties a list.
  function Stored(p: Parser, t: Token): (m: Option<Message>) {
    match p.field
    case Unknown => Some(p.message)
    case NumberField =>
      (match t
       case Num(Some(n)) => Some(p.message.(tMessage := n))
       case Null => Some(p.message)
       case _ => None)
    case StringsField =>
      if p.depth == 0 then if t.Null? then Some(p.message.(messages := [])) else None
      else
        match t
        case Text(rs) => Some(p.message.(messages := p.message.messages + [rs]))
        case Null => Some(p.message.(messages := p.message.messages + [[]]))
        case _ => None
  }

  function AdvanceValue(p: Parser, t: Token): (q: Parser) {
    match t
    case OpenList =>
      if p.depth + 2 > MAX_DEPTH || p.field.NumberField? || (p.field.StringsField? && p.depth > 0)
      then p.(place := Failed)
      else
        Parser(ValueOrEnd, p.depth + 1, p.field,
               if p.field.StringsField? then p.message.(messages := []) else p.message)
    case CloseList =>
      if p.place.ValueOrEnd? && p.depth > 0 then p.(place := BehindValue, depth := p.depth - 1) else p.(place := Failed)
    case Open => p.(place := Failed)
    case Close => p.(place := Failed)
    case Colon => p.(place := Failed)
    case Comma => p.(place := Failed)
    case _ =>
      match Stored(p, t)
      case None => p.(place := Failed)
      case Some(m) => p.(place := BehindValue, message := m)
  }

  function Advance(p: Parser, t: Token): (q: Parser) {
    match p.place
    case Start => p.(place := if t.Open? then KeyOrEnd else Failed)
    case KeyOrEnd =>
      if t.Text? then p.(place := BehindKey, field := FieldOf(t.text))
      else p.(place := if t.Close? then End else Failed)
    case Key => if t.Text? then p.(place := BehindKey, field := FieldOf(t.text)) else p.(place := Failed)
    case BehindKey => p.(place := if t.Colon? then Value else Failed)
    case Value => AdvanceValue(p, t)
    case ValueOrEnd => AdvanceValue(p, t)
    case BehindValue =>
      if p.depth == 0 then p.(place := if t.Comma? then Key else if t.Close? then End else Failed)
      else if t.Comma? then p.(place := Value)
      else if t.CloseList? then p.(depth := p.depth - 1)
      else p.(place := Failed)
    case End => p.(place := Failed)
    case Failed => p
  }

  function Run(p: Parser, ts: seq<Token>): (q: Parser)
    decreases |ts|
  {
    if ts == [] then p else Run(Advance(p, ts[0]), ts[1..])
  }

  /** `json.Unmarshal` into an empty message, for texts without an object inside. */
  function Decode(s: seq<byte>): (m: Option<Message>) {
    match Lex(s)
    case None => None
    case Some(ts) =>
      var p := Run(INITIAL, ts);
      if p.place.End? then Some(p.message) else None
  }

  lemma {:induction false} RunConcat(p: Parser, a: seq<Token>, b: seq<Token>)
    ensures Run(p, a + b) == Run(Run(p, a), b)
    decreases |a|
  {
    hide Advance;
    if a == [] {
      assert a + b == b;
    } else {
      assert (a + b)[1..] == a[1..] + b;
      RunConcat(Advance(p, a[0]), a[1..], b);
    }
  }

  lemma {:induction false} RunFailed(p: Parser, ts: seq<Token>)
    requires p.place.Failed? || (p.place.End? && ts != [])
    ensures Run(p, ts).place.Failed?
    decreases |ts|
  {
    if ts != [] {
      RunFailed(Advance(p, ts[0]), ts[1..]);
    }
  }

  // ---------------------------------------------------------------- round trip

  lemma NumberNext(d: nat, rest: seq<byte>, acc: nat)
    requires d < 10
    ensures Number(['0' as int + d] + rest, acc) == Number(rest, acc * 10 + d)
  {
    assert (['0' as int + d] + rest)[1..] == rest;
  }

  lemma {:induction false} NumberOfDigits(n: nat, rest: seq<byte>)
    ensures Number(Digits(n) + rest, 0) == Number(rest, n)
  {
    if n >= 10 {
      NumberOfDigits(n / 10, ['0' as int + n % 10] + rest);
      assert Digits(n) + rest == Digits(n / 10) + (['0' as int + n % 10] + rest);
      NumberNext(n % 10, rest, n / 10);
    } else {
      NumberNext(n, rest, 0);
    }
  }

  /** Every 64-bit number is read back from its digits. */
  lemma IntRoundTrip(n: int64)
    ensures Classify(EncodeInt(n)) == Some(Num(Some(n)))
  {
    hide Digits;
    var v: nat := if n < 0 then -(n as int) else n;
    var digits, s := Digits(v), EncodeInt(n);
    NumberOfDigits(v, []);
    assert digits + [] == digits;
    assert (if s[0] == MINUS then s[1..] else s) == digits;
    assert s[0] == MINUS || IsDigit(s[0]);
  }

  lemma EscapeRoundTrip(r: rune, rest: seq<byte>)
    ensures TakeRune(Escape(r) + rest) == Some((r, |Escape(r)|))
    ensures Escape(r)[0] != QUOTE
  {
    hide EncodeRune, DecodeRune;
    var e, s := Escape(r), Escape(r) + rest;
    assert forall i :: 0 <= i < |e| ==> s[i] == e[i];
    DecodeAfterEncode(r, rest);
  }

  lemma {:induction false} BodyRoundTrip(rs: seq<rune>, rest: seq<byte>)
    ensures ParseBody(EncodeBody(rs) + [QUOTE] + rest) == Some((rs, rest))
  {
    hide Escape, TakeRune;
    var s := EncodeBody(rs) + [QUOTE] + rest;
    if rs == [] {
      assert s[1..] == rest;
    } else {
      var e := Escape(rs[0]);
      var tail := EncodeBody(rs[1..]) + [QUOTE] + rest;
      EscapeRoundTrip(rs[0], tail);
      assert s == e + tail && s[|e|..] == tail;
      BodyRoundTrip(rs[1..], rest);
      assert [rs[0]] + rs[1..] == rs;
    }
  }

  // A literal that is never closed does not parse.
  lemma {:induction false} OpenBody(rs: seq<rune>)
    ensures ParseBody(EncodeBody(rs)).None?
  {
    hide Escape, TakeRune;
    if rs != [] {
      var e, tail := Escape(rs[0]), EncodeBody(rs[1..]);
      EscapeRoundTrip(rs[0], tail);
      assert (e + tail)[|e|..] == tail;
      OpenBody(rs[1..]);
    }
  }

  lemma LexString(rs: seq<rune>, rest: seq<byte>)
    ensures Lex(EncodeString(rs) + rest) == Joined(Some([Text(rs)]), Lex(rest))
  {
    hide Lex, ParseBody, EncodeBody;
    var s := EncodeBody(rs) + [QUOTE] + rest;
    assert EncodeString(rs) + rest == [QUOTE] + s;
    LexQuote(s);
    BodyRoundTrip(rs, rest);
  }

  lemma LexInt(n: int64, b: byte, rest: seq<byte>)
    requires !IsWordByte(b)
    ensures Lex(EncodeInt(n) + ([b] + rest)) == Joined(Some([Num(Some(n))]), Lex([b] + rest))
  {
    hide Lex, EncodeInt, Classify;
    LexWord(EncodeInt(n), [b] + rest);
    IntRoundTrip(n);
  }

  function FrontTokens(n: int64): (ts: seq<Token>) {
    [Open, Text(NUMBER_KEY), Colon, Num(Some(n)), Comma, Text(STRINGS_KEY), Colon, OpenList]
  }

  lemma LexFront(n: int64, rest: seq<byte>)
    ensures Lex(Front(n) + rest) == Joined(Some(FrontTokens(n)), Lex(rest))
  {
    hide Lex, EncodeString, EncodeInt;
    var s6 := [START_LIST] + rest;
    var s5 := [COLON] + s6;
    var s4 := EncodeString(STRINGS_KEY) + s5;
    var s3 := [COMMA] + s4;
    var s2 := EncodeInt(n) + s3;
    var s1 := [COLON] + s2;
    var s0 := EncodeString(NUMBER_KEY) + s1;
    assert Front(n) + rest == [OPEN] + s0;
    LexSign(OPEN, s0);
    LexString(NUMBER_KEY, s1);
    LexSign(COLON, s2);
    LexInt(n, COMMA, s4);
    LexSign(COMMA, s4);
    LexString(STRINGS_KEY, s5);
    LexSign(COLON, s6);
    LexSign(START_LIST, rest);
    if Lex(rest).Some? {
      assert [Open] + ([Text(NUMBER_KEY)] + ([Colon] + ([Num(Some(n))] + ([Comma] + ([Text(STRINGS_KEY)]
             + ([Colon] + ([OpenList] + Lex(rest).value))))))) == FrontTokens(n) + Lex(rest).value;
    }
  }

  function ListTokens(strings: seq<seq<rune>>): (ts: seq<Token>) {
    if strings == [] then []
    else if |strings| == 1 then [Text(strings[0])]
    else [Text(strings[0]), Comma] + ListTokens(strings[1..])
  }

  lemma {:induction false} LexList(strings: seq<seq<rune>>, rest: seq<byte>)
    ensures Lex(EncodeList(strings) + rest) == Joined(Some(ListTokens(strings)), Lex(rest))
  {
    hide Lex, EncodeString;
    if strings == [] {
      assert [] + rest == rest;
      JoinedAssoc(Lex(rest), None, None);
    } else if |strings| == 1 {
      LexString(strings[0], rest);
    } else {
      var tail := EncodeList(strings[1..]) + rest;
      LexString(strings[0], [COMMA] + tail);
      LexSign(COMMA, tail);
      LexList(strings[1..], rest);
      assert EncodeList(strings) + rest == EncodeString(strings[0]) + ([COMMA] + tail);
      if Lex(rest).Some? {
        assert [Text(strings[0])] + ([Comma] + (ListTokens(strings[1..]) + Lex(rest).value))
            == [Text(strings[0]), Comma] + ListTokens(strings[1..]) + Lex(rest).value;
      }
    }
  }

  lemma RunStep(p: Parser, t: Token, ts: seq<Token>)
    ensures Run(p, [t] + ts) == Run(Advance(p, t), ts)
    ensures Run(p, []) == p && Run(p, [t]) == Advance(p, t)
  {
    assert ([t] + ts)[1..] == ts;
  }

  // A key and the colon behind it.
  lemma RunKey(p: Parser, key: seq<rune>, ts: seq<Token>)
    requires p.place.KeyOrEnd? || p.place.Key?
    ensures Run(p, [Text(key), Colon] + ts) == Run(p.(place := Value, field := FieldOf(key)), ts)
  {
    hide FieldOf, Run;
    var q := p.(place := BehindKey, field := FieldOf(key));
    RunStep(p, Text(key), [Colon] + ts);
    RunStep(q, Colon, ts);
    assert [Text(key), Colon] + ts == [Text(key)] + ([Colon] + ts);
  }

  lemma KeyFields()
    ensures FieldOf(NUMBER_KEY) == NumberField && FieldOf(STRINGS_KEY) == StringsField
  {
    assert NUMBER_KEY[0] == 84 && STRINGS_KEY[0] == 77;
  }

  lemma RunFront(n: int64)
    ensures Run(INITIAL, FrontTokens(n)) == Parser(ValueOrEnd, 1, StringsField, Message(n, []))
  {
    hide FieldOf, Run;
    KeyFields();
    var behind := [Text(STRINGS_KEY), Colon] + [OpenList];
    var number := [Num(Some(n))] + ([Comma] + behind);
    assert FrontTokens(n) == [Open] + ([Text(NUMBER_KEY), Colon] + number);
    RunStep(INITIAL, Open, [Text(NUMBER_KEY), Colon] + number);
    RunKey(INITIAL.(place := KeyOrEnd), NUMBER_KEY, number);
    var p := Parser(Value, 0, NumberField, EMPTY);
    RunStep(p, Num(Some(n)), [Comma] + behind);
    var q := Parser(BehindValue, 0, NumberField, Message(n, []));
    RunStep(q, Comma, behind);
    RunKey(q.(place := Key), STRINGS_KEY, [OpenList]);
    RunStep(Parser(Value, 0, StringsField, Message(n, [])), OpenList, []);
  }

  function Collected(p: Parser, strings: seq<seq<rune>>): (q: Parser) {
    p.(place := BehindValue, message := Message(p.message.tMessage, p.message.messages + strings))
  }

  predicate AtString(p: Parser) {
    (p.place.Value? || p.place.ValueOrEnd?) && p.depth == 1 && p.field.StringsField?
  }

  lemma CollectOne(p: Parser, rs: seq<rune>)
    requires AtString(p)
    ensures Advance(p, Text(rs)) == Collected(p, [rs])
    ensures var q := Advance(Collected(p, [rs]), Comma); q == Collected(p, [rs]).(place := Value) && AtString(q)
  {
  }

  lemma CollectMore(p: Parser, strings: seq<seq<rune>>)
    requires strings != []
    ensures Collected(Collected(p, [strings[0]]).(place := Value), strings[1..]) == Collected(p, strings)
  {
    assert p.message.messages + strings == p.message.messages + [strings[0]] + strings[1..];
  }

  // The strings of a list are collected in order.
  lemma {:induction false} RunList(p: Parser, strings: seq<seq<rune>>)
    requires strings != [] && AtString(p)
    ensures Run(p, ListTokens(strings)) == Collected(p, strings)
    decreases |strings|
  {
    hide Run, Advance, Collected, AtString;
    var q := Collected(p, [strings[0]]);
    CollectOne(p, strings[0]);
    if |strings| == 1 {
      RunStep(p, Text(strings[0]), []);
      assert strings == [strings[0]];
    } else {
      var ts := ListTokens(strings[1..]);
      assert ListTokens(strings) == [Text(strings[0])] + ([Comma] + ts);
      RunStep(p, Text(strings[0]), [Comma] + ts);
      RunStep(q, Comma, ts);
      RunList(q.(place := Value), strings[1..]);
      CollectMore(p, strings);
    }
  }

  /** Every message is read back, whatever its number and its strings. */
  lemma RoundTrip(m: Message)
    ensures Decode(Encode(m)) == Some(m)
  {
    hide Lex, Front, EncodeList, FrontTokens, ListTokens, Run;
    var end := [END_LIST, CLOSE];
    assert Encode(m) == Front(m.tMessage) + (EncodeList(m.messages) + end);
    LexFront(m.tMessage, EncodeList(m.messages) + end);
    LexList(m.messages, end);
    LexEnd();
    RunMessage(m);
  }

  lemma LexClose()
    ensures Lex([CLOSE]) == Some([Close])
  {
    LexSign(CLOSE, []);
    assert [CLOSE] + [] == [CLOSE];
    JoinedAssoc(Some([Close]), None, None);
  }

  lemma LexEnd()
    ensures Lex([END_LIST, CLOSE]) == Some([CloseList, Close])
  {
    LexSign(END_LIST, [CLOSE]);
    assert [END_LIST] + [CLOSE] == [END_LIST, CLOSE] && [CloseList] + [Close] == [CloseList, Close];
    LexClose();
  }

  lemma RunMessage(m: Message)
    ensures Run(INITIAL, FrontTokens(m.tMessage) + (ListTokens(m.messages) + [CloseList, Close]))
            == Parser(End, 0, StringsField, m)
  {
    hide FrontTokens;
    RunConcat(INITIAL, FrontTokens(m.tMessage), ListTokens(m.messages) + [CloseList, Close]);
    RunFront(m.tMessage);
    var p := Run(INITIAL, FrontTokens(m.tMessage));
    RunConcat(p, ListTokens(m.messages), [CloseList, Close]);
    if m.messages != [] {
      RunList(p, m.messages);
      assert [] + m.messages == m.messages;
      assert Collected(p, m.messages).message == m;
    }
    RunClosing(Run(p, ListTokens(m.messages)));
  }

  lemma RunClosing(p: Parser)
    requires (p.place.ValueOrEnd? || p.place.BehindValue?) && p.depth == 1
    ensures Run(p, [CloseList, Close]) == p.(place := End, depth := 0)
  {
    hide Run;
    RunStep(p, CloseList, [Close]);
    RunStep(p.(place := BehindValue, depth := 0), Close, []);
    assert [CloseList] + [Close] == [CloseList, Close];
  }

  // ---------------------------------------------------------------- the forms spelled out

  /** A message is `{"TMessage":` and its number, `,"Messages":[` and its strings, and `]}`. */
  lemma MessageForm(m: Message)
    ensures Encode(m)
         == [123, 34, 84, 77, 101, 115, 115, 97, 103, 101, 34, 58] + EncodeInt(m.tMessage)
            + [44, 34, 77, 101, 115, 115, 97, 103, 101, 115, 34, 58, 91] + EncodeList(m.messages) + [93, 125]
  {
    hide EncodeInt, EncodeList, EncodeString;
    KeyBytes();
  }

  lemma KeyBytes()
    ensures EncodeString(NUMBER_KEY) == [34, 84, 77, 101, 115, 115, 97, 103, 101, 34]
    ensures EncodeString(STRINGS_KEY) == [34, 77, 101, 115, 115, 97, 103, 101, 115, 34]
  {
    hide EncodeBody;
    PlainBody(NUMBER_KEY);
    PlainBody(STRINGS_KEY);
  }

  lemma {:induction false} PlainBody(rs: seq<rune>)
    requires forall i :: 0 <= i < |rs| ==> 'A' as int <= rs[i] <= 'z' as int && rs[i] != BACKSLASH
    ensures EncodeBody(rs) == rs
  {
    if rs != [] {
      PlainBody(rs[1..]);
      assert [rs[0]] + rs[1..] == rs;
    }
  }

  /** How the characters are written that are not written as they are. */
  lemma EscapeForms(r: rune)
    ensures r == 34 || r == 92 ==> Escape(r) == [92, r]
    ensures r == 10 ==> Escape(r) == [92, 110]
    ensures r == 13 ==> Escape(r) == [92, 114]
    ensures r == 9 ==> Escape(r) == [92, 116]
    ensures (r < 32 && r !in {9, 10, 13}) || r in {60, 62, 38} ==>
              Escape(r) == [92, 117, 48, 48, "0123456789abcdef"[r / 16] as int, "0123456789abcdef"[r % 16] as int]
    ensures r in {0x2028, 0x2029} ==> Escape(r) == [92, 117, 50, 48, 50, 56 + (r - 0x2028)]
    ensures r >= 32 && r !in {34, 92, 60, 62, 38, 0x2028, 0x2029} ==> Escape(r) == EncodeRune(r)
  {
    hide EncodeRune;
    if r < 256 {
      Hex.DigitSpelled(r / 16);
    }
    Hex.DigitSpelled(r % 16);
  }

  // mESSAGES, tMessage and x
  const LOOSE_STRINGS: seq<rune> := [109, 69, 83, 83, 65, 71, 69, 83]
  const LOOSE_NUMBER: seq<rune> := [116, 77, 101, 115, 115, 97, 103, 101]
  const OTHER_KEY: seq<rune> := [120]

  // The second half of the text below, from the list on.
  function LooseTail(n: int64): (s: seq<byte>) {
    EncodeString(OTHER_KEY)
    + ([COLON] + (TRUE + ([COMMA] + (EncodeString(LOOSE_NUMBER) + ([COLON] + (EncodeInt(n) + ([13] + [CLOSE])))))))
  }

  function LooseText(n: int64, rs: seq<rune>): (s: seq<byte>) {
    [OPEN] + ([SPACE] + (EncodeString(LOOSE_STRINGS) + ([9] + ([COLON] + ([START_LIST] + ([10]
      + (EncodeString(rs) + ([SPACE] + ([END_LIST] + ([COMMA] + LooseTail(n)))))))))))
  }

  function LooseTailTokens(n: int64): (ts: seq<Token>) {
    [Text(OTHER_KEY), Colon] + ([Bool] + ([Comma] + ([Text(LOOSE_NUMBER), Colon] + ([Num(Some(n))] + [Close]))))
  }

  lemma LexLooseTail(n: int64)
    ensures Lex(LooseTail(n)) == Some(LooseTailTokens(n))
  {
    hide Lex, EncodeString, EncodeInt, IsWordByte;
    var s5 := [13] + [CLOSE];
    var s4 := [COLON] + (EncodeInt(n) + s5);
    var s3 := [COMMA] + (EncodeString(LOOSE_NUMBER) + s4);
    LexString(OTHER_KEY, [COLON] + (TRUE + s3));
    LexSign(COLON, TRUE + s3);
    LexTrue(s3);
    LexSign(COMMA, EncodeString(LOOSE_NUMBER) + s4);
    LexString(LOOSE_NUMBER, s4);
    LexSign(COLON, EncodeInt(n) + s5);
    assert !IsWordByte(13) by { Controls(); }
    LexInt(n, 13, [CLOSE]);
    LexSpace(13, [CLOSE]);
    LexClose();
    assert [Text(OTHER_KEY)] + ([Colon] + ([Bool] + ([Comma] + ([Text(LOOSE_NUMBER)] + ([Colon]
           + ([Num(Some(n))] + ([] + [Close]))))))) == LooseTailTokens(n);
  }

  lemma Controls()
    ensures !IsWordByte(13) && !IsWordByte(COMMA)
  {
  }

  lemma LexTrue(rest: seq<byte>)
    requires rest != [] && rest[0] == COMMA
    ensures Lex(TRUE + rest) == Joined(Some([Bool]), Lex(rest))
  {
    hide Lex;
    LexWord(TRUE, rest);
  }

  lemma RunNumber(p: Parser, n: int64)
    requires p.place.Value? && p.depth == 0 && p.field.NumberField?
    ensures Run(p, [Num(Some(n))] + [Close]) == p.(place := End, message := Message(n, p.message.messages))
  {
    hide Run;
    RunStep(p, Num(Some(n)), [Close]);
    RunStep(p.(place := BehindValue, message := Message(n, p.message.messages)), Close, []);
  }

  lemma LooseFields()
    ensures FieldOf(OTHER_KEY) == Unknown && FieldOf(LOOSE_NUMBER) == NumberField
    ensures FieldOf(LOOSE_STRINGS) == StringsField
  {
    hide Matches;
    assert !Matches(OTHER_KEY, NUMBER_KEY) && !Matches(OTHER_KEY, STRINGS_KEY) by { OtherLength(); }
    SameIgnoringCase();
    FirstLetterDiffers();
  }

  lemma OtherLength()
    ensures !Matches(OTHER_KEY, NUMBER_KEY) && !Matches(OTHER_KEY, STRINGS_KEY)
  {
    assert |OTHER_KEY| == 1 && |NUMBER_KEY| == 8 && |STRINGS_KEY| == 8;
  }

  lemma SameIgnoringCase()
    ensures Matches(LOOSE_NUMBER, NUMBER_KEY) && Matches(LOOSE_STRINGS, STRINGS_KEY)
  {
  }

  lemma FirstLetterDiffers()
    ensures !Matches(LOOSE_STRINGS, NUMBER_KEY)
  {
    assert Folded(LOOSE_STRINGS[0]) == 'm' as int && Folded(NUMBER_KEY[0]) == 't' as int;
  }

  lemma RunLooseTail(p: Parser, n: int64)
    requires p.place.Key? && p.depth == 0
    ensures Run(p, LooseTailTokens(n)) == Parser(End, 0, NumberField, Message(n, p.message.messages))
  {
    hide Run, FieldOf;
    LooseFields();
    var number := [Text(LOOSE_NUMBER), Colon] + ([Num(Some(n))] + [Close]);
    RunKey(p, OTHER_KEY, [Bool] + ([Comma] + number));
    RunStep(p.(place := Value, field := Unknown), Bool, [Comma] + number);
    RunStep(p.(place := BehindValue, field := Unknown), Comma, number);
    RunKey(p.(place := Key, field := Unknown), LOOSE_NUMBER, [Num(Some(n))] + [Close]);
    RunNumber(p.(place := Value, field := NumberField), n);
  }

  lemma LexLoose(n: int64, rs: seq<rune>)
    ensures Lex(LooseText(n, rs))
         == Some([Open] + ([Text(LOOSE_STRINGS), Colon] + ([OpenList] + ([Text(rs)] + ([CloseList] + ([Comma]
                  + LooseTailTokens(n)))))))
  {
    hide Lex, EncodeString, LooseTail, LooseTailTokens;
    LexLooseTail(n);
    var s4 := [SPACE] + ([END_LIST] + ([COMMA] + LooseTail(n)));
    var s3 := [10] + (EncodeString(rs) + s4);
    var s2 := [9] + ([COLON] + ([START_LIST] + s3));
    LexSign(OPEN, [SPACE] + (EncodeString(LOOSE_STRINGS) + s2));
    LexSpace(SPACE, EncodeString(LOOSE_STRINGS) + s2);
    LexString(LOOSE_STRINGS, s2);
    LexSpace(9, [COLON] + ([START_LIST] + s3));
    LexSign(COLON, [START_LIST] + s3);
    LexSign(START_LIST, s3);
    LexSpace(10, EncodeString(rs) + s4);
    LexString(rs, s4);
    LexSpace(SPACE, [END_LIST] + ([COMMA] + LooseTail(n)));
    LexSign(END_LIST, [COMMA] + LooseTail(n));
    LexSign(COMMA, LooseTail(n));
    var tail := LooseTailTokens(n);
    assert [Open] + ([] + ([Text(LOOSE_STRINGS)] + ([] + ([Colon] + ([OpenList] + ([] + ([Text(rs)] + ([] + ([CloseList]
           + ([Comma] + tail))))))))))
        == [Open] + ([Text(LOOSE_STRINGS), Colon] + ([OpenList] + ([Text(rs)] + ([CloseList] + ([Comma] + tail)))));
  }

  /**
   White space, keys in either case and in either order, and keys without a field make no difference:
   `{ "mESSAGES" :[ "..." ],"x":true,"tMessage":n }`, with three other kinds of white space in it.
   */
  lemma LooseMessage(n: int64, rs: seq<rune>)
    ensures Decode(LooseText(n, rs)) == Some(Message(n, [rs]))
  {
    hide Lex, Run, FieldOf, LooseText, LooseTailTokens;
    LexLoose(n, rs);
    LooseFields();
    var tail := LooseTailTokens(n);
    var list := [OpenList] + ([Text(rs)] + ([CloseList] + ([Comma] + tail)));
    RunStep(INITIAL, Open, [Text(LOOSE_STRINGS), Colon] + list);
    RunKey(INITIAL.(place := KeyOrEnd), LOOSE_STRINGS, list);
    var p := Parser(Value, 0, StringsField, EMPTY);
    RunStep(p, OpenList, [Text(rs)] + ([CloseList] + ([Comma] + tail)));
    RunStep(Parser(ValueOrEnd, 1, StringsField, EMPTY), Text(rs), [CloseList] + ([Comma] + tail));
    assert [] + [rs] == [rs];
    var q := Parser(BehindValue, 1, StringsField, Message(0, [rs]));
    RunStep(q, CloseList, [Comma] + tail);
    RunStep(q.(depth := 0), Comma, tail);
    RunLooseTail(Parser(Key, 0, StringsField, Message(0, [rs])), n);
  }

  // ---------------------------------------------------------------- what the decoder makes of values

  predicate IsScalar(t: Token) {
    t.Text? || t.Num? || t.Bool? || t.Null?
  }

  lemma RunMember(p: Parser, t: Token)
    requires p.place.Value? && p.depth == 0 && IsScalar(t)
    ensures Run(p, [t] + [Close]).place.End? <==> Stored(p, t).Some?
    ensures Stored(p, t).Some? ==> Run(p, [t] + [Close]).message == Stored(p, t).value
  {
    hide Run, Stored;
    RunStep(p, t, [Close]);
    var q := Advance(p, t);
    RunStep(q, Close, []);
  }

  /**
   An object of one member with a value that is no list: the number takes an integer of 64 bits, null changes
   nothing, an unknown key takes anything, and every other value is refused.
   */
  lemma OneMember(key: seq<rune>, t: Token)
    requires IsScalar(t)
    ensures var p := Run(INITIAL, [Open] + ([Text(key), Colon] + ([t] + [Close])));
            match FieldOf(key)
            case NumberField =>
              (match t
               case Num(Some(n)) => p.place.End? && p.message == Message(n, [])
               case Null => p.place.End? && p.message == Message(0, [])
               case _ => !p.place.End?)
            case StringsField => (p.place.End? <==> t.Null?) && (t.Null? ==> p.message == Message(0, []))
            case Unknown => p.place.End? && p.message == Message(0, [])
  {
    hide Run, FieldOf;
    RunStep(INITIAL, Open, [Text(key), Colon] + ([t] + [Close]));
    RunKey(INITIAL.(place := KeyOrEnd), key, [t] + [Close]);
    RunMember(Parser(Value, 0, FieldOf(key), EMPTY), t);
  }

  function Opens(n: nat): (ts: seq<Token>) {
    if n == 0 then [] else [OpenList] + Opens(n - 1)
  }

  function Closes(n: nat): (ts: seq<Token>) {
    if n == 0 then [] else [CloseList] + Closes(n - 1)
  }

  lemma {:induction false} RunOpens(p: Parser, n: nat)
    requires (p.place.Value? || p.place.ValueOrEnd?) && p.field.Unknown?
    ensures if p.depth + n + 1 <= 10000 || n == 0 then
              Run(p, Opens(n)) == if n == 0 then p else p.(place := ValueOrEnd, depth := p.depth + n)
            else Run(p, Opens(n)).place.Failed?
    decreases n
  {
    hide Run;
    if n > 0 {
      RunStep(p, OpenList, Opens(n - 1));
      if p.depth + 2 <= 10000 {
        RunOpens(p.(place := ValueOrEnd, depth := p.depth + 1), n - 1);
      } else {
        RunFailed(p.(place := Failed), Opens(n - 1));
      }
    } else {
      RunStep(p, Null, []);
    }
  }

  lemma {:induction false} RunCloses(p: Parser, n: nat)
    requires (p.place.BehindValue? || (p.place.ValueOrEnd? && n > 0)) && p.field.Unknown? && n <= p.depth
    ensures Run(p, Closes(n)) == p.(place := BehindValue, depth := p.depth - n)
    decreases n
  {
    hide Run;
    if n > 0 {
      RunStep(p, CloseList, Closes(n - 1));
      RunCloses(p.(place := BehindValue, depth := p.depth - 1), n - 1);
    } else {
      RunStep(p, Null, []);
    }
  }

  /** Lists may be nested under an unknown key up to a depth of 9999, the object being one more level. */
  lemma NestedExactly(n: nat)
    requires n > 0
    ensures Run(Parser(Value, 0, Unknown, EMPTY), Opens(n) + Closes(n)).place.Failed? <==> n > 9999
    ensures n <= 9999 ==>
              Run(Parser(Value, 0, Unknown, EMPTY), Opens(n) + Closes(n)) == Parser(BehindValue, 0, Unknown, EMPTY)
  {
    hide Run, Opens, Closes;
    var p := Parser(Value, 0, Unknown, EMPTY);
    RunConcat(p, Opens(n), Closes(n));
    RunOpens(p, n);
    if n <= 9999 {
      RunCloses(Run(p, Opens(n)), n);
    } else {
      RunFailed(Run(p, Opens(n)), Closes(n));
    }
  }

  /** In the list of strings null stands for an empty one, and anything but a string is refused. */
  lemma ListElement(t: Token, strings: seq<seq<rune>>, n: int64)
    ensures var q := Advance(Parser(Value, 1, StringsField, Message(n, strings)), t);
            match t
            case Text(rs) => q == Parser(BehindValue, 1, StringsField, Message(n, strings + [rs]))
            case Null => q == Parser(BehindValue, 1, StringsField, Message(n, strings + [[]]))
            case _ => q.place.Failed?
  {
  }
}
