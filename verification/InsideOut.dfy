/**
 What becomes of a message with a `}` in a string. The first piece ends inside a string literal and is
 lost. The pieces behind it start inside one, so the decoder takes the writer's text inside out: the
 characters of the strings for its own signs, and every `","` between two strings for a string of one comma.
 */
module InsideOut {
  import opened Wrappers
  import opened Utf8
  import opened Framing
  import opened JsonTokens
  import Codec = MessageCodec

  /** The strings of a message in a row, with the borders between them. */
  datatype Mark = Letter(r: rune) | Border

  function Letters(rs: seq<rune>): (ms: seq<Mark>)
    ensures |ms| == |rs| && forall i :: 0 <= i < |ms| ==> ms[i] == Letter(rs[i])
  {
    if rs == [] then [] else [Letter(rs[0])] + Letters(rs[1..])
  }

  function Glue(strings: seq<seq<rune>>): (ms: seq<Mark>) {
    if strings == [] then []
    else if |strings| == 1 then Letters(strings[0])
    else Letters(strings[0]) + [Border] + Glue(strings[1..])
  }

  /** The first place of a character, the length if there is none. */
  function Find(ms: seq<Mark>, r: rune): (i: nat)
    ensures i <= |ms| && forall j :: 0 <= j < i ==> ms[j] != Letter(r)
    ensures i < |ms| ==> ms[i] == Letter(r)
  {
    if ms == [] || ms[0] == Letter(r) then 0 else 1 + Find(ms[1..], r)
  }

  // ---------------------------------------------------------------- the condition on the strings

  predicate IsWordMark(m: Mark) {
    m.Letter? && m.r < 0x80 && IsWordByte(m.r)
  }

  function WordRun(ms: seq<Mark>): (k: nat)
    ensures k <= |ms| && forall i :: 0 <= i < k ==> IsWordMark(ms[i])
    ensures k < |ms| ==> !IsWordMark(ms[k])
  {
    if ms == [] || !IsWordMark(ms[0]) then 0 else 1 + WordRun(ms[1..])
  }

  function Spelled(ms: seq<Mark>): (s: seq<byte>)
    requires forall i :: 0 <= i < |ms| ==> IsWordMark(ms[i])
    ensures |s| == |ms| && forall i :: 0 <= i < |s| ==> ms[i] == Letter(s[i])
  {
    if ms == [] then [] else
    assert IsWordMark(ms[0]);
    [ms[0].r] + Spelled(ms[1..])
  }

  /** The tokens of the marks taken for JSON; only spaces, signs, words and borders are any. */
  function Skim(ms: seq<Mark>): (ts: Option<seq<Token>>)
    decreases |ms|
  {
    if ms == [] then Some([])
    else if ms[0].Border? then Joined(Some([Text([COMMA])]), Skim(ms[1..]))
    else
      var r := ms[0].r;
      if r == SPACE then Skim(ms[1..])
      else if r < 0x80 && Sign(r).Some? then Joined(Some([Sign(r).value]), Skim(ms[1..]))
      else
        var k := WordRun(ms);
        if k == 0 then None else
        match Classify(Spelled(ms[..k]))
        case None => None
        case Some(t) => Joined(Some([t]), Skim(ms[k..]))
  }

  /** Between braces these marks would be an object. */
  predicate IsObject(ms: seq<Mark>) {
    Skim(ms).Some? && Codec.Run(Codec.INITIAL, [Open] + Skim(ms).value + [Close]).place.End?
  }

  // What stands behind the first `{` of a piece counts.
  predicate IsStray(piece: seq<Mark>) {
    var x := Find(piece, OPEN);
    x < |piece| && IsObject(piece[x + 1..])
  }

  // The stray objects behind a `}`.
  function Behind(ms: seq<Mark>): (n: nat) {
    var k := Find(ms, CLOSE);
    if k == |ms| then 0 else (if IsStray(ms[..k]) then 1 else 0) + Behind(ms[k + 1..])
  }

  /** How many empty messages the strings of one message let loose. */
  function Strays(strings: seq<seq<rune>>): (n: nat) {
    var ms := Glue(strings);
    var k := Find(ms, CLOSE);
    if k == |ms| then 0 else Behind(ms[k + 1..])
  }

  function Empties(n: nat): (ms: seq<Codec.Message>)
    ensures |ms| == n && forall i :: 0 <= i < n ==> ms[i] == Codec.EMPTY
  {
    if n == 0 then [] else [Codec.EMPTY] + Empties(n - 1)
  }

  // ---------------------------------------------------------------- the bytes of the marks

  function MarkBytes(m: Mark): (s: seq<byte>)
    ensures s != []
  {
    if m.Border? then [QUOTE, COMMA, QUOTE] else Codec.Escape(m.r)
  }

  function Bytes(ms: seq<Mark>): (s: seq<byte>) {
    if ms == [] then [] else MarkBytes(ms[0]) + Bytes(ms[1..])
  }

  lemma {:induction false} BytesConcat(a: seq<Mark>, b: seq<Mark>)
    ensures Bytes(a + b) == Bytes(a) + Bytes(b)
  {
    hide MarkBytes;
    if a == [] {
      assert a + b == b;
    } else {
      assert (a + b)[1..] == a[1..] + b;
      BytesConcat(a[1..], b);
    }
  }

  lemma BytesCut(ms: seq<Mark>, k: nat)
    requires k < |ms|
    ensures Bytes(ms) == Bytes(ms[..k]) + MarkBytes(ms[k]) + Bytes(ms[k + 1..])
  {
    hide Bytes, MarkBytes;
    var tail := [ms[k]] + ms[k + 1..];
    assert ms == ms[..k] + tail;
    BytesConcat(ms[..k], tail);
    BytesCons(ms[k], ms[k + 1..]);
  }

  lemma BytesCutClose(ms: seq<Mark>, k: nat, z: seq<byte>)
    requires k < |ms| && ms[k] == Letter(CLOSE)
    ensures Bytes(ms) + z == (Bytes(ms[..k]) + [CLOSE]) + (Bytes(ms[k + 1..]) + z)
  {
    hide Bytes, Codec.Escape;
    EscapeFree(CLOSE, CLOSE);
    BytesCut(ms, k);
  }

  lemma BytesCons(m: Mark, ms: seq<Mark>)
    ensures Bytes([m] + ms) == MarkBytes(m) + Bytes(ms)
  {
    assert ([m] + ms)[1..] == ms;
  }

  lemma {:induction false} BytesLetters(rs: seq<rune>)
    ensures Bytes(Letters(rs)) == Codec.EncodeBody(rs)
  {
    hide Codec.Escape;
    if rs != [] {
      BytesLetters(rs[1..]);
      assert Letters(rs)[1..] == Letters(rs[1..]);
    }
  }

  lemma {:induction false} GlueBytes(strings: seq<seq<rune>>)
    requires strings != []
    ensures Codec.EncodeList(strings) == [QUOTE] + Bytes(Glue(strings)) + [QUOTE]
  {
    hide Bytes, Codec.EncodeBody;
    BytesLetters(strings[0]);
    if |strings| > 1 {
      var a, b := Letters(strings[0]), Glue(strings[1..]);
      GlueBytes(strings[1..]);
      BytesBorder(a, b);
      QuotedList(Codec.EncodeBody(strings[0]), Bytes(b));
    }
  }

  lemma QuotedList(x: seq<byte>, y: seq<byte>)
    ensures [QUOTE] + x + [QUOTE] + [COMMA] + ([QUOTE] + y + [QUOTE])
            == [QUOTE] + (x + [QUOTE, COMMA, QUOTE] + y) + [QUOTE]
  {
  }

  lemma BytesBorder(a: seq<Mark>, b: seq<Mark>)
    ensures Bytes(a + [Border] + b) == Bytes(a) + [QUOTE, COMMA, QUOTE] + Bytes(b)
  {
    hide Bytes;
    assert a + [Border] + b == a + ([Border] + b);
    BytesConcat(a, [Border] + b);
    BytesCons(Border, b);
  }

  lemma EscapeFree(r: rune, b: byte)
    requires b == OPEN || b == CLOSE
    ensures r != b ==> Free(Codec.Escape(r), b)
    ensures r == b ==> Codec.Escape(r) == [b]
  {
  }

  lemma {:induction false} BytesFree(ms: seq<Mark>, b: byte)
    requires b == OPEN || b == CLOSE
    requires forall i :: 0 <= i < |ms| ==> ms[i] != Letter(b)
    ensures Free(Bytes(ms), b)
  {
    hide Codec.Escape;
    if ms != [] {
      if ms[0].Letter? { EscapeFree(ms[0].r, b); }
      BytesFree(ms[1..], b);
    }
  }

  // ---------------------------------------------------------------- the decoder inside out

  lemma {:induction false} BytesSpelled(ms: seq<Mark>)
    requires forall i :: 0 <= i < |ms| ==> IsWordMark(ms[i])
    ensures Bytes(ms) == Spelled(ms)
  {
    if ms != [] {
      BytesSpelled(ms[1..]);
    }
  }

  lemma FirstMark(m: Mark)
    ensures !IsWordMark(m) ==> !IsWordByte(MarkBytes(m)[0])
    ensures m.Letter? && (m.r == SPACE || (m.r < 0x80 && Sign(m.r).Some?)) ==> MarkBytes(m) == [m.r]
    ensures m.Letter? && !IsWordMark(m) && m.r != SPACE && !(m.r < 0x80 && Sign(m.r).Some?) ==>
              var b := MarkBytes(m)[0]; !IsSpace(b) && Sign(b).None? && b != QUOTE
  {
  }

  // A border between two strings is a string to who reads inside out.
  lemma LexBorder(rest: seq<byte>)
    ensures Lex([QUOTE, COMMA, QUOTE] + rest) == Joined(Some([Text([COMMA])]), Lex(rest))
  {
    hide Lex;
    assert Codec.EncodeBody([COMMA]) == [COMMA];
    assert Codec.EncodeString([COMMA]) == [QUOTE, COMMA, QUOTE];
    Codec.LexString([COMMA], rest);
  }

  lemma LexMark(ms: seq<Mark>, rest: seq<byte>)
    requires ms != [] && !IsWordMark(ms[0])
    ensures Lex(MarkBytes(ms[0]) + rest)
         == if ms[0].Border? then Joined(Some([Text([COMMA])]), Lex(rest))
            else if ms[0].r == SPACE then Lex(rest)
            else if ms[0].r < 0x80 && Sign(ms[0].r).Some? then Joined(Some([Sign(ms[0].r).value]), Lex(rest))
            else None
  {
    hide Lex, Codec.Escape;
    var m := ms[0];
    FirstMark(m);
    if m.Border? {
      LexBorder(rest);
    } else if m.r == SPACE {
      LexSpace(SPACE, rest);
      JoinedAssoc(Lex(rest), None, None);
    } else if m.r < 0x80 && Sign(m.r).Some? {
      LexSign(m.r, rest);
    } else {
      NoToken(MarkBytes(m) + rest);
    }
  }

  lemma LexWordMarks(ms: seq<Mark>, z: seq<byte>)
    requires WordRun(ms) > 0 && z != [] && !IsWordByte(z[0])
    ensures var k := WordRun(ms);
            Lex(Bytes(ms) + z)
            == match Classify(Spelled(ms[..k])) case None => None
               case Some(t) => Joined(Some([t]), Lex(Bytes(ms[k..]) + z))
  {
    hide Lex, Classify, IsWordByte, MarkBytes, IsWordMark;
    var k := WordRun(ms);
    var word, rest := Spelled(ms[..k]), Bytes(ms[k..]) + z;
    BytesSpelled(ms[..k]);
    assert ms == ms[..k] + ms[k..];
    BytesConcat(ms[..k], ms[k..]);
    assert Bytes(ms) + z == word + rest;
    if k < |ms| {
      FirstMark(ms[k]);
      assert rest[0] == MarkBytes(ms[k])[0];
    }
    forall i | 0 <= i < |word| ensures IsWordByte(word[i]) {
      assert IsWordMark(ms[i]);
      WordMarkByte(ms[i]);
    }
    LexWord(word, rest);
  }

  lemma WordMarkByte(m: Mark)
    requires IsWordMark(m)
    ensures m.Letter? && m.r < 0x80 && IsWordByte(m.r)
    ensures m.r != SPACE && Sign(m.r).None?
  {
  }

  /** The decoder's tokens of what the writer wrote inside strings, from a place outside its own strings. */
  lemma {:induction false} LexMarks(ms: seq<Mark>, z: seq<byte>)
    requires z != [] && !IsWordByte(z[0])
    ensures Lex(Bytes(ms) + z) == Joined(Skim(ms), Lex(z))
    decreases |ms|
  {
    hide Lex, Classify, IsWordByte, MarkBytes, Sign, IsWordMark;
    if ms == [] {
      assert [] + z == z;
      JoinedAssoc(Lex(z), None, None);
    } else if IsWordMark(ms[0]) {
      var k := WordRun(ms);
      WordMarkByte(ms[0]);
      LexWordMarks(ms, z);
      LexMarks(ms[k..], z);
      match Classify(Spelled(ms[..k]))
      case None =>
      case Some(t) => JoinedAssoc(Some([t]), Skim(ms[k..]), Lex(z));
    } else {
      var rest := Bytes(ms[1..]) + z;
      assert Bytes(ms) + z == MarkBytes(ms[0]) + rest;
      LexMark(ms, rest);
      LexMarks(ms[1..], z);
      if ms[0].Border? {
        JoinedAssoc(Some([Text([COMMA])]), Skim(ms[1..]), Lex(z));
      } else if ms[0].r < 0x80 && Sign(ms[0].r).Some? {
        JoinedAssoc(Some([Sign(ms[0].r).value]), Skim(ms[1..]), Lex(z));
      }
    }
  }

  predicate OnlyCommas(ts: seq<Token>) {
    forall i :: 0 <= i < |ts| && ts[i].Text? ==> ts[i].text == [COMMA]
  }

  lemma {:induction false} SkimOnlyCommas(ms: seq<Mark>)
    ensures Skim(ms).Some? ==> OnlyCommas(Skim(ms).value)
    decreases |ms|
  {
    hide Classify, IsWordMark;
    if ms != [] {
      SkimOnlyCommas(ms[1..]);
      var k := WordRun(ms);
      if k > 0 { SkimOnlyCommas(ms[k..]); }
    }
  }

  // No field of a message is called by a comma, so nothing is ever stored.
  lemma {:induction false} CommasStoreNothing(p: Codec.Parser, ts: seq<Token>)
    requires OnlyCommas(ts) && p.field.Unknown?
    ensures Codec.Run(p, ts).message == p.message
    decreases |ts|
  {
    if ts != [] {
      assert |Codec.NUMBER_KEY| == 8 && |Codec.STRINGS_KEY| == 8;
      CommasStoreNothing(Codec.Advance(p, ts[0]), ts[1..]);
    }
  }

  // What stands between braces decodes to nothing, or to the empty message.
  lemma DecodeMarks(ms: seq<Mark>)
    ensures Codec.Decode([OPEN] + (Bytes(ms) + [CLOSE])) == if IsObject(ms) then Some(Codec.EMPTY) else None
  {
    hide Bytes, Skim, Lex, Codec.Run;
    LexMarks(ms, [CLOSE]);
    LexSign(OPEN, Bytes(ms) + [CLOSE]);
    Codec.LexClose();
    ObjectStoresNothing(ms);
    if Skim(ms).Some? {
      assert [Open] + (Skim(ms).value + [Close]) == [Open] + Skim(ms).value + [Close];
    }
  }

  // A piece between two closing braces of the strings.
  lemma MiddlePiece(piece: seq<Mark>)
    ensures Deliver(Codec.Decode, Bytes(piece) + [CLOSE]) == if IsStray(piece) then [Codec.EMPTY] else []
  {
    hide Bytes, Find, IsObject, Codec.Decode, Trimmed;
    TrimmedMarks(piece, [CLOSE]);
    var x := Find(piece, OPEN);
    if x < |piece| { DecodeMarks(piece[x + 1..]); }
  }

  lemma ObjectStoresNothing(ms: seq<Mark>)
    ensures IsObject(ms) ==> Codec.Run(Codec.INITIAL, [Open] + Skim(ms).value + [Close]).message == Codec.EMPTY
  {
    hide Skim, Codec.Run;
    SkimOnlyCommas(ms);
    if IsObject(ms) { CommasStoreNothing(Codec.INITIAL, [Open] + Skim(ms).value + [Close]); }
  }

  lemma TrimmedMarks(piece: seq<Mark>, z: seq<byte>)
    requires Free(z, OPEN)
    ensures var x := Find(piece, OPEN);
            Trimmed(Bytes(piece) + z) == if x < |piece| then Some([OPEN] + (Bytes(piece[x + 1..]) + z)) else None
  {
    hide Bytes, Codec.Escape, Index, Trimmed, Find, Free;
    var x, s := Find(piece, OPEN), Bytes(piece) + z;
    if x < |piece| {
      BytesCut(piece, x);
      EscapeFree(OPEN, OPEN);
      BytesFree(piece[..x], OPEN);
      TrimmedFront(Bytes(piece[..x]), Bytes(piece[x + 1..]), z);
    } else {
      BytesFree(piece, OPEN);
      NothingToTrim(Bytes(piece), z);
    }
  }

  lemma NothingToTrim(s: seq<byte>, z: seq<byte>)
    requires Free(s, OPEN) && Free(z, OPEN)
    ensures Trimmed(s + z) == None
  {
  }

  lemma TrimmedFront(front: seq<byte>, tail: seq<byte>, z: seq<byte>)
    requires Free(front, OPEN)
    ensures Trimmed(front + [OPEN] + tail + z) == Some([OPEN] + (tail + z))
  {
    var s := front + [OPEN] + tail + z;
    IndexIs(s, OPEN, |front|);
    assert s[|front|..] == [OPEN] + (tail + z);
  }

  // The closing quote, and the ends of the list and the message.
  const LAST: seq<byte> := [QUOTE, END_LIST, CLOSE]

  lemma LastLex()
    ensures Lex(LAST).None?
  {
    LexQuote([END_LIST, CLOSE]);
    assert LAST == [QUOTE] + [END_LIST, CLOSE];
    var s := [END_LIST, CLOSE];
    assert s[1..] == [CLOSE] && [CLOSE][1..] == [];
    assert ParseBody([CLOSE]).None?;
  }

  // The last piece: the decoder is left inside a string.
  lemma LastPiece(piece: seq<Mark>)
    ensures Deliver(Codec.Decode, Bytes(piece) + LAST) == []
  {
    hide Bytes, Find, Skim, Lex, Codec.Run, Trimmed;
    TrimmedMarks(piece, LAST);
    var x := Find(piece, OPEN);
    if x < |piece| {
      var ms := piece[x + 1..];
      LexMarks(ms, LAST);
      LastLex();
      LexSign(OPEN, Bytes(ms) + LAST);
    }
  }

  /** What is delivered from the part of a message behind a closing brace in a string. */
  lemma {:induction false} BehindDelivers(ms: seq<Mark>)
    ensures Delivered(Codec.Decode, Bytes(ms) + LAST) == Empties(Behind(ms))
    decreases |ms|
  {
    hide Bytes, Find, Free, IsStray, Deliver, Delivered, Codec.Decode, Codec.Escape;
    var k := Find(ms, CLOSE);
    if k == |ms| {
      BytesFree(ms, CLOSE);
      OnePiece(Codec.Decode, Bytes(ms), LAST);
      LastPiece(ms);
    } else {
      var piece, tail := ms[..k], ms[k + 1..];
      BytesCutClose(ms, k, LAST);
      BytesFree(piece, CLOSE);
      var f := Bytes(piece) + [CLOSE];
      FreeIsPiece(Bytes(piece));
      FirstPiece(Codec.Decode, f, Bytes(tail) + LAST);
      MiddlePiece(piece);
      BehindDelivers(tail);
    }
  }

  lemma FreeIsPiece(s: seq<byte>)
    requires Free(s, CLOSE)
    ensures IsPiece(s + [CLOSE])
  {
  }

  lemma {:induction false} NoneBefore(piece: seq<Mark>)
    requires forall i :: 0 <= i < |piece| ==> piece[i] != Letter(CLOSE)
    ensures Find(piece, CLOSE) == |piece|
  {
  }

  // ---------------------------------------------------------------- whole messages

  predicate CleanText(rs: seq<rune>) {
    forall j :: 0 <= j < |rs| ==> rs[j] != CLOSE
  }

  predicate CleanStrings(strings: seq<seq<rune>>) {
    forall i :: 0 <= i < |strings| ==> CleanText(strings[i])
  }

  predicate Clean(m: Codec.Message) {
    CleanStrings(m.messages)
  }

  lemma {:induction false} GlueClean(strings: seq<seq<rune>>)
    ensures Find(Glue(strings), CLOSE) == |Glue(strings)| <==> CleanStrings(strings)
  {
    if strings != [] {
      LettersClean(strings[0]);
      if |strings| > 1 {
        GlueClean(strings[1..]);
        var a, b := Letters(strings[0]), Glue(strings[1..]);
        FindConcat(a, [Border] + b);
        FindConcat([Border], b);
        assert a + [Border] + b == a + ([Border] + b);
        assert forall i :: 0 < i < |strings| ==> strings[i] == strings[1..][i - 1];
      }
    }
  }

  lemma LettersClean(rs: seq<rune>)
    ensures Find(Letters(rs), CLOSE) == |rs| <==> CleanText(rs)
  {
    if CleanText(rs) { NoneBefore(Letters(rs)); }
  }

  lemma {:induction false} FindConcat(a: seq<Mark>, b: seq<Mark>)
    ensures Find(a + b, CLOSE) == |a + b| <==> Find(a, CLOSE) == |a| && Find(b, CLOSE) == |b|
  {
    if Find(a, CLOSE) == |a| && Find(b, CLOSE) == |b| { NoneBefore(a + b); }
    if Find(a + b, CLOSE) == |a + b| {
      forall i | 0 <= i < |a| ensures a[i] != Letter(CLOSE) { assert (a + b)[i] == a[i]; }
      forall i | 0 <= i < |b| ensures b[i] != Letter(CLOSE) { assert (a + b)[|a| + i] == b[i]; }
      NoneBefore(a);
      NoneBefore(b);
    }
  }

  // A quote and what follows it up to a place inside a string is no token list.
  lemma {:induction false} NeverClosed(ms: seq<Mark>)
    ensures Lex([QUOTE] + Bytes(ms)).None?
    decreases |ms|
  {
    hide Lex, Bytes, Codec.EncodeBody;
    var rs, more := FirstString(ms);
    BytesLetters(rs);
    if more == [] {
      Codec.OpenBody(rs);
      assert ms == Letters(rs);
      LexQuote(Bytes(ms));
    } else {
      BytesConcat(Letters(rs), more);
      BytesCons(Border, more[1..]);
      assert more == [Border] + more[1..];
      var tail := [QUOTE] + Bytes(more[1..]);
      assert [QUOTE] + Bytes(ms) == Codec.EncodeString(rs) + ([COMMA] + tail);
      Codec.LexString(rs, [COMMA] + tail);
      LexSign(COMMA, tail);
      NeverClosed(more[1..]);
    }
  }

  lemma {:induction false} FirstString(ms: seq<Mark>) returns (rs: seq<rune>, more: seq<Mark>)
    ensures ms == Letters(rs) + more && (more != [] ==> more[0] == Border)
  {
    if ms == [] || ms[0].Border? {
      rs, more := [], ms;
    } else {
      rs, more := FirstString(ms[1..]);
      rs := [ms[0].r] + rs;
      assert rs[1..] + [] == rs[1..];
      assert Letters(rs) == [ms[0]] + Letters(rs[1..]);
    }
  }

  lemma FrontFree(n: int64)
    ensures Free(Codec.Front(n), CLOSE) && Codec.Front(n)[0] == OPEN && |Codec.Front(n)| > 3
  {
    hide Codec.EncodeInt, Codec.EncodeBody;
    KeyFree(Codec.NUMBER_KEY);
    KeyFree(Codec.STRINGS_KEY);
  }

  lemma {:induction false} KeyFree(rs: seq<rune>)
    requires CleanText(rs)
    ensures Free(Codec.EncodeBody(rs), CLOSE)
  {
    LettersClean(rs);
    BytesLetters(rs);
    BytesFree(Letters(rs), CLOSE);
  }

  // The first piece of an unclean message, which decodes to nothing, and the rest.
  lemma CutMessage(m: Codec.Message) returns (head: seq<byte>, behind: seq<Mark>)
    requires !Clean(m)
    ensures Codec.Encode(m) == head + (Bytes(behind) + LAST) && Behind(behind) == Strays(m.messages)
    ensures WellFramed(head) && Codec.Front(m.tMessage) <= head && Codec.Decode(head).None?
  {
    hide Bytes, Find, Glue, Behind, Free, WellFramed, CleanStrings, Codec.Encode, Codec.Decode, Codec.Front;
    var ms := Glue(m.messages);
    GlueClean(m.messages);
    NoStrings();
    var k := Find(ms, CLOSE);
    BytesFree(ms[..k], CLOSE);
    FrontFree(m.tMessage);
    var front, inside := Codec.Front(m.tMessage), Bytes(ms[..k]);
    behind := ms[k + 1..];
    head := front + ([QUOTE] + (inside + [CLOSE]));
    HeadFramed(front, inside);
    BytesCutClose(ms, k, LAST);
    EncodeMarks(m);
    Inner(front, inside + [CLOSE], Bytes(behind) + LAST);
    HeadLost(m.tMessage, ms[..k]);
  }

  lemma NoStrings()
    ensures CleanStrings([])
  {
  }

  lemma HeadFramed(front: seq<byte>, inside: seq<byte>)
    requires Free(front, CLOSE) && front != [] && front[0] == OPEN && Free(inside, CLOSE)
    ensures var head := front + ([QUOTE] + (inside + [CLOSE])); WellFramed(head) && front <= head
  {
  }

  lemma EncodeMarks(m: Codec.Message)
    requires m.messages != []
    ensures Codec.Encode(m) == Codec.Front(m.tMessage) + ([QUOTE] + (Bytes(Glue(m.messages)) + LAST))
  {
    hide Bytes, Codec.Front, Codec.EncodeList, Glue;
    GlueBytes(m.messages);
  }

  lemma Inner(a: seq<byte>, b: seq<byte>, c: seq<byte>)
    ensures a + ([QUOTE] + (b + c)) == a + ([QUOTE] + b) + c
  {
  }

  lemma HeadLost(n: int64, ms: seq<Mark>)
    ensures Codec.Decode(Codec.Front(n) + ([QUOTE] + (Bytes(ms) + [CLOSE]))).None?
  {
    hide Bytes, Lex, Codec.Front, Codec.Run, Codec.FrontTokens;
    BytesConcat(ms, [Letter(CLOSE)]);
    assert Bytes([Letter(CLOSE)]) == [CLOSE] by { EscapeFree(CLOSE, CLOSE); OneMark(Letter(CLOSE)); }
    NeverClosed(ms + [Letter(CLOSE)]);
    Codec.LexFront(n, [QUOTE] + (Bytes(ms) + [CLOSE]));
  }

  lemma OneMark(m: Mark)
    ensures Bytes([m]) == MarkBytes(m)
  {
    hide MarkBytes;
    BytesCons(m, []);
    assert [m] + [] == [m];
  }

  // ---------------------------------------------------------------- when there are strays

  predicate Without(ms: seq<Mark>, r: rune) {
    forall i :: 0 <= i < |ms| ==> ms[i] != Letter(r)
  }

  /**
   Behind a `}` of the strings the next brace is a `{`, and what stands between it and the next `}` would be
   an object if every border were a string.
   */
  predicate StrayAt(ms: seq<Mark>, i: int, x: int, k: int) {
    && 0 <= i < x < k < |ms|
    && ms[i] == Letter(CLOSE) && ms[x] == Letter(OPEN) && ms[k] == Letter(CLOSE)
    && Without(ms[i + 1..x], OPEN) && Without(ms[i + 1..x], CLOSE)
    && Without(ms[x + 1..k], CLOSE) && IsObject(ms[x + 1..k])
  }

  ghost predicate HasStray(ms: seq<Mark>) {
    exists i, x, k :: StrayAt(ms, i, x, k)
  }

  /** A message lets an empty one loose exactly when there is such a place in its strings. */
  lemma StraysExactly(strings: seq<seq<rune>>)
    ensures Strays(strings) > 0 <==> HasStray(Glue(strings))
  {
    hide Behind, StrayAt;
    var ms := Glue(strings);
    var k := Find(ms, CLOSE);
    if k < |ms| { BehindExactly(ms, k); }
    forall i, x, c | StrayAt(ms, i, x, c) ensures k <= i < |ms| {
      StrayCloses(ms, i, x, c);
    }
  }

  lemma StrayCloses(ms: seq<Mark>, i: int, x: int, k: int)
    requires StrayAt(ms, i, x, k)
    ensures 0 <= i < x < k < |ms| && ms[i] == Letter(CLOSE) && ms[k] == Letter(CLOSE)
    ensures forall j :: i < j < k ==> ms[j] != Letter(CLOSE)
  {
    hide IsObject;
    forall j | i < j < k ensures ms[j] != Letter(CLOSE) {
      if j < x { assert ms[j] == ms[i + 1..x][j - i - 1]; }
      if j > x { assert ms[j] == ms[x + 1..k][j - x - 1]; }
    }
  }

  lemma NextClose(ms: seq<Mark>, i: nat) returns (c: nat)
    requires i < |ms|
    ensures i < c <= |ms| && (c < |ms| ==> ms[c] == Letter(CLOSE)) && forall j :: i < j < c ==> ms[j] != Letter(CLOSE)
    ensures Behind(ms[i + 1..])
         == if c == |ms| then 0 else (if IsStray(ms[i + 1..c]) then 1 else 0) + Behind(ms[c + 1..])
  {
    hide IsStray, Find;
    var n := Find(ms[i + 1..], CLOSE);
    c := i + 1 + n;
    Slices(ms, i, c);
    forall j | i < j < c ensures ms[j] != Letter(CLOSE) { assert ms[j] == ms[i + 1..][j - i - 1]; }
  }

  lemma Slices(ms: seq<Mark>, i: nat, c: nat)
    requires i < c <= |ms|
    ensures ms[i + 1..][..c - i - 1] == ms[i + 1..c]
    ensures c < |ms| ==> ms[i + 1..][c - i..] == ms[c + 1..] && ms[i + 1..][c - i - 1] == ms[c]
  {
  }

  lemma {:induction false} BehindExactly(ms: seq<Mark>, i: nat)
    requires i < |ms| && ms[i] == Letter(CLOSE)
    ensures Behind(ms[i + 1..]) > 0 <==> exists j, x, k :: i <= j && StrayAt(ms, j, x, k)
    decreases |ms| - i
  {
    hide StrayAt, IsStray, Behind;
    var c := NextClose(ms, i);
    forall j, x, k | i <= j && StrayAt(ms, j, x, k) ensures c < |ms| && (if j == i then k == c else c <= j) {
      StrayCloses(ms, j, x, k);
    }
    if c < |ms| {
      BehindExactly(ms, c);
      StrayHere(ms, i, c);
    }
  }

  lemma StrayHere(ms: seq<Mark>, i: nat, c: nat)
    requires i < c < |ms| && ms[i] == Letter(CLOSE) && ms[c] == Letter(CLOSE)
    requires forall j :: i < j < c ==> ms[j] != Letter(CLOSE)
    ensures IsStray(ms[i + 1..c]) <==> exists x :: StrayAt(ms, i, x, c)
  {
    hide IsObject, Find;
    var piece := ms[i + 1..c];
    var x := i + 1 + Find(piece, OPEN);
    if x < c {
      InnerSlices(ms, i, x, c);
    }
    forall y | StrayAt(ms, i, y, c) ensures y == x {
      hide Without;
      FirstOpen(ms, i, y, c);
    }
    assert x < c && IsObject(ms[x + 1..c]) ==> StrayAt(ms, i, x, c);
  }

  lemma InnerSlices(ms: seq<Mark>, i: nat, x: nat, c: nat)
    requires i < x < c < |ms| && forall j :: i < j < c ==> ms[j] != Letter(CLOSE)
    ensures ms[i + 1..c][x - i..] == ms[x + 1..c] && ms[i + 1..c][..x - i - 1] == ms[i + 1..x]
    ensures ms[i + 1..c][x - i - 1] == ms[x]
    ensures Without(ms[x + 1..c], CLOSE) && Without(ms[i + 1..x], CLOSE)
  {
  }

  lemma FirstOpen(ms: seq<Mark>, i: nat, y: int, c: int)
    requires i < y < c < |ms| && Without(ms[i + 1..y], OPEN) && ms[y] == Letter(OPEN)
    ensures y == i + 1 + Find(ms[i + 1..c], OPEN)
  {
    hide Find;
    var piece := ms[i + 1..c];
    assert piece[y - i - 1] == ms[y];
    forall j | 0 <= j < y - i - 1 ensures piece[j] != Letter(OPEN) { assert piece[j] == ms[i + 1..y][j]; }
  }

  lemma {:induction false} SkimLetters(ms: seq<Mark>)
    requires forall i :: 0 <= i < |ms| ==> ms[i] != Border
    ensures Skim(ms).Some? ==> forall i :: 0 <= i < |Skim(ms).value| ==> !Skim(ms).value[i].Text?
    ensures Skim(ms) == Some([]) <==> forall i :: 0 <= i < |ms| ==> ms[i] == Letter(SPACE)
    decreases |ms|
  {
    hide Classify, Spelled, IsWordMark;
    if ms != [] {
      if IsWordMark(ms[0]) {
        WordMarkByte(ms[0]);
        SkimLetters(ms[WordRun(ms)..]);
      } else {
        SkimLetters(ms[1..]);
        assert forall i :: 0 < i < |ms| ==> ms[i] == ms[1..][i - 1];
      }
    }
  }

  lemma BlankObject(ms: seq<Mark>)
    requires forall i :: 0 <= i < |ms| ==> ms[i] != Border
    ensures IsObject(ms) <==> forall i :: 0 <= i < |ms| ==> ms[i] == Letter(SPACE)
  {
    hide Skim, Codec.Run;
    SkimLetters(ms);
    if Skim(ms).Some? {
      var ts := Skim(ms).value;
      var p := Codec.INITIAL.(place := Codec.KeyOrEnd);
      assert [Open] + ts + [Close] == [Open] + (ts + [Close]);
      Codec.RunStep(Codec.INITIAL, Open, ts + [Close]);
      if ts == [] {
        assert ts + [Close] == [Close];
        Codec.RunStep(p, Close, []);
      } else {
        var more := ts[1..] + [Close];
        assert ts + [Close] == [ts[0]] + more;
        Codec.RunStep(p, ts[0], more);
        Codec.RunFailed(Codec.Advance(p, ts[0]), more);
      }
    }
  }

  predicate NoBraces(rs: seq<rune>) {
    forall j :: 0 <= j < |rs| ==> rs[j] != OPEN && rs[j] != CLOSE
  }

  predicate Blank(rs: seq<rune>) {
    forall j :: 0 <= j < |rs| ==> rs[j] == SPACE
  }

  /** Three braces, and only spaces between the last two. */
  predicate BlankAt(rs: seq<rune>, i: int, x: int, k: int) {
    && 0 <= i < x < k < |rs|
    && rs[i] == CLOSE && rs[x] == OPEN && rs[k] == CLOSE
    && NoBraces(rs[i + 1..x]) && Blank(rs[x + 1..k])
  }

  /** In a message of one string only spaces may stand between the braces. */
  lemma StraysOfOne(rs: seq<rune>)
    ensures Strays([rs]) > 0 <==> exists i, x, k :: BlankAt(rs, i, x, k)
  {
    hide StrayAt, BlankAt, Strays;
    StraysExactly([rs]);
    forall i, x, k ensures StrayAt(Letters(rs), i, x, k) <==> BlankAt(rs, i, x, k) {
      StrayLetters(rs, i, x, k);
    }
    assert Glue([rs]) == Letters(rs);
  }

  lemma StrayLetters(rs: seq<rune>, i: int, x: int, k: int)
    ensures StrayAt(Letters(rs), i, x, k) <==> BlankAt(rs, i, x, k)
  {
    hide IsObject, Without, NoBraces, Blank;
    if 0 <= i < x < k < |rs| {
      LettersSlice(rs, i + 1, x);
      LettersSlice(rs, x + 1, k);
      BraceLetters(rs[i + 1..x]);
      BlankLetters(rs[x + 1..k]);
    }
  }

  lemma LettersSlice(rs: seq<rune>, i: int, k: int)
    requires 0 <= i <= k <= |rs|
    ensures Letters(rs)[i..k] == Letters(rs[i..k])
  {
    var a, b := Letters(rs)[i..k], Letters(rs[i..k]);
    hide Letters;
    forall j | 0 <= j < k - i ensures a[j] == b[j] {
      assert a[j] == Letters(rs)[i + j] && rs[i..k][j] == rs[i + j];
    }
  }

  lemma BraceLetters(rs: seq<rune>)
    ensures Without(Letters(rs), OPEN) && Without(Letters(rs), CLOSE) <==> NoBraces(rs)
  {
    var ms := Letters(rs);
    assert forall j :: 0 <= j < |rs| ==> ms[j] == Letter(rs[j]);
  }

  lemma BlankLetters(rs: seq<rune>)
    ensures Without(Letters(rs), CLOSE) && IsObject(Letters(rs)) <==> Blank(rs)
  {
    hide IsObject;
    var ms := Letters(rs);
    assert forall j :: 0 <= j < |rs| ==> ms[j] == Letter(rs[j]);
    BlankObject(ms);
  }
}
