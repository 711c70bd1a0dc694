/**
 The message codec on the wire: exactly what a reader hands on from a stream of messages, and what garbage
 costs. The only thing that breaks a frame is a `}` inside a string, which the writer leaves unescaped.
 */
module MessageStream {
  import opened Wrappers
  import opened Utf8
  import opened Framing
  import opened JsonTokens
  import opened InsideOut
  import Codec = MessageCodec

  lemma CleanIsWellFramed(m: Codec.Message)
    requires Clean(m)
    ensures WellFramed(Codec.Encode(m))
  {
    hide Codec.EncodeList, Codec.Front, Find, Bytes;
    FrontFree(m.tMessage);
    var list := Codec.EncodeList(m.messages);
    if m.messages != [] {
      GlueBytes(m.messages);
      GlueClean(m.messages);
      BytesFree(Glue(m.messages), CLOSE);
    }
    EmptyList();
    assert Free(list, CLOSE);
  }

  lemma EmptyList()
    ensures Codec.EncodeList([]) == []
  {
  }

  // ---------------------------------------------------------------- where a message can begin

  const T: byte := 'T' as int

  // `{"T`, the start of every message.
  predicate KeyAt(s: seq<byte>, i: int) {
    0 <= i < |s| - 2 && s[i] == OPEN && s[i + 1] == QUOTE && s[i + 2] == T
  }

  predicate NoKey(s: seq<byte>) {
    forall i :: 0 <= i < |s| ==> !KeyAt(s, i)
  }

  // What follows some bytes without a `{` has no key iff the whole has none.
  lemma NoKeyConcat(a: seq<byte>, s: seq<byte>)
    requires Free(a, OPEN) && NoKey(s)
    ensures NoKey(a + s)
  {
    forall i | 0 <= i < |a + s| ensures !KeyAt(a + s, i) {
      if i >= |a| { assert !KeyAt(s, i - |a|); }
    }
  }

  lemma {:induction false} BodyNoKey(s: seq<byte>)
    requires ParseBody(s).Some?
    requires var rest := ParseBody(s).value.1; (rest == [] || rest[0] != T) && NoKey(rest)
    ensures NoKey(s)
    decreases |s|
  {
    hide TakeRune, NoKey;
    if s[0] == QUOTE {
      NoKeyConcat([s[0]], s[1..]);
      assert s == [s[0]] + s[1..];
    } else {
      var (c, width) := TakeRune(s).value;
      BodyNoKey(s[width..]);
      if s[0] == OPEN {
        AfterBrace(s);
      } else {
        NoKeyConcat(s[..width], s[width..]);
        assert s == s[..width] + s[width..];
      }
    }
  }

  // A brace before the closing quote is followed by what stands behind the literal.
  lemma AfterBrace(s: seq<byte>)
    requires |s| >= 1 && s[0] == OPEN && NoKey(s[1..])
    requires ParseBody(s[1..]).Some?
    requires var rest := ParseBody(s[1..]).value.1; rest == [] || rest[0] != T
    ensures NoKey(s)
  {
    hide TakeRune;
    forall i | 0 <= i < |s| ensures !KeyAt(s, i) {
      if i > 0 { assert !KeyAt(s[1..], i - 1); }
    }
  }

  // No word begins with this letter.
  lemma NoWordWithT(s: seq<byte>)
    requires s != [] && s[0] == T
    ensures Lex(s).None?
  {
    var k := WordEnd(s);
    assert s[..k][0] == T;
  }

  // Without an opening brace among the tokens the start of a message stands nowhere.
  lemma {:induction false} LexNoKey(s: seq<byte>)
    requires Lex(s).Some? && Open !in Lex(s).value
    ensures NoKey(s)
    decreases |s|
  {
    hide ParseBody, Classify, IsWordByte, NoKey;
    if s == [] {
      NoKeyNil();
    } else {
      var (ts, rest) := FirstToken(s).value;
      assert Lex(s).value == ts + Lex(rest).value;
      LexNoKey(rest);
      if IsSpace(s[0]) || Sign(s[0]).Some? {
        assert s == [s[0]] + rest;
        if s[0] == OPEN { assert false; }
        NoKeyConcat([s[0]], rest);
      } else if s[0] == QUOTE {
        if rest != [] && rest[0] == T { NoWordWithT(rest); }
        BodyNoKey(s[1..]);
        NoKeyConcat([s[0]], s[1..]);
        assert s == [s[0]] + s[1..];
      } else {
        var k := WordEnd(s);
        assert s == s[..k] + rest;
        WordFree(s[..k]);
        NoKeyConcat(s[..k], rest);
      }
    }
  }

  lemma NoKeyNil()
    ensures NoKey([])
  {
  }

  lemma WordFree(s: seq<byte>)
    requires forall i :: 0 <= i < |s| ==> IsWordByte(s[i])
    ensures Free(s, OPEN)
  {
  }

  // Only the first token of a message is an opening brace.
  lemma {:induction false} OpenOnlyFirst(p: Codec.Parser, ts: seq<Token>)
    requires !p.place.Start? && Codec.Run(p, ts).place.End?
    ensures Open !in ts
    decreases |ts|
  {
    if ts != [] {
      var q := Codec.Advance(p, ts[0]);
      OpenOnlyFirst(q, ts[1..]);
      if ts[0].Open? { Codec.RunFailed(q, ts[1..]); }
    }
  }

  /** In a text that decodes, the start of a message occurs at the start only. */
  lemma OpensOnce(s: seq<byte>)
    requires s != [] && s[0] == OPEN && Codec.Decode(s).Some?
    ensures forall i :: 0 < i < |s| ==> !KeyAt(s, i)
  {
    hide Lex, NoKey, Codec.Run;
    assert s == [OPEN] + s[1..];
    LexSign(OPEN, s[1..]);
    var ts := Lex(s[1..]).value;
    Codec.RunStep(Codec.INITIAL, Open, ts);
    OpenOnlyFirst(Codec.INITIAL.(place := Codec.KeyOrEnd), ts);
    LexNoKey(s[1..]);
    KeysBehind(s);
  }

  lemma KeysBehind(s: seq<byte>)
    requires s != [] && NoKey(s[1..])
    ensures forall i :: 0 < i < |s| ==> !KeyAt(s, i)
  {
    forall i | 0 < i < |s| ensures !KeyAt(s, i) {
      assert !KeyAt(s[1..], i - 1);
    }
  }

  lemma FrontKey(n: int64, s: seq<byte>)
    requires Codec.Front(n) <= s
    ensures KeyAt(s, 0)
  {
    hide Codec.EncodeInt, Codec.EncodeBody, Codec.Escape;
    BodyStart();
    var f := Codec.Front(n);
    assert f[0] == OPEN && f[1] == QUOTE && f[2] == T;
    assert s[0] == f[0] && s[1] == f[1] && s[2] == f[2];
  }

  lemma BodyStart()
    ensures var body := Codec.EncodeBody(Codec.NUMBER_KEY); body != [] && body[0] == T
  {
  }

  // ---------------------------------------------------------------- what gets through

  // A frame behind something with a `{` decodes to nothing.
  lemma SpoiledFrame(rest: seq<byte>, f: seq<byte>)
    requires Free(rest, CLOSE) && !Free(rest, OPEN) && IsPiece(f) && KeyAt(f, 0)
    ensures Deliver(Codec.Decode, rest + f) == []
  {
    hide Codec.Decode;
    var k := Index(rest + f, OPEN);
    var i :| 0 <= i < |rest| && rest[i] == OPEN;
    assert (rest + f)[i] == OPEN;
    var t := (rest + f)[k..];
    assert KeyAt(t, |rest| - k);
    if Codec.Decode(t).Some? {
      OpensOnce(t);
      assert false;
    }
  }

  lemma EncodeEnds(m: Codec.Message)
    ensures EndsWithClose(Codec.Encode(m))
  {
  }

  /** What one message makes a reader hand on: itself if it is clean, otherwise the empty messages it lets loose. */
  function Arriving(m: Codec.Message): (ms: seq<Codec.Message>) {
    if Clean(m) then [m] else Empties(Strays(m.messages))
  }

  function AllArriving(ms: seq<Codec.Message>): (r: seq<Codec.Message>) {
    if ms == [] then [] else Arriving(ms[0]) + AllArriving(ms[1..])
  }

  // What is left of a message when its first piece is lost.
  function Remainder(m: Codec.Message): (ms: seq<Codec.Message>) {
    if Clean(m) then [] else Empties(Strays(m.messages))
  }

  lemma FirstAfter(rest: seq<byte>, m: Codec.Message)
    requires Free(rest, CLOSE)
    ensures Delivered(Codec.Decode, rest + Codec.Encode(m)) == if Free(rest, OPEN) then Arriving(m) else Remainder(m)
    ensures Rest(rest + Codec.Encode(m)) == []
  {
    hide Codec.Decode, Codec.Encode, Codec.Front, Delivered, Rest, Deliver, Strays, Bytes, Behind;
    EncodeEnds(m);
    NothingLeft(rest + Codec.Encode(m));
    if Clean(m) {
      CleanIsWellFramed(m);
      MessageKey(m);
      Codec.RoundTrip(m);
      FrameAfter(rest, Codec.Encode(m));
    } else {
      var head, behind := CutMessage(m);
      FrontKey(m.tMessage, head);
      FrameAfter(rest, head);
      var tail := Bytes(behind) + LAST;
      assert rest + Codec.Encode(m) == (rest + head) + tail;
      SplitStream(Codec.Decode, rest + head, tail);
      assert [] + tail == tail;
      BehindDelivers(behind);
    }
  }

  lemma MessageKey(m: Codec.Message)
    ensures KeyAt(Codec.Encode(m), 0)
  {
    hide Codec.Front, Codec.EncodeList;
    FrontKey(m.tMessage, Codec.Encode(m));
  }

  lemma FrameAfter(rest: seq<byte>, f: seq<byte>)
    requires Free(rest, CLOSE) && WellFramed(f) && KeyAt(f, 0)
    ensures Rest(rest + f) == []
    ensures Delivered(Codec.Decode, rest + f)
         == if !Free(rest, OPEN) then [] else match Codec.Decode(f) case Some(m) => [m] case None => []
  {
    hide Codec.Decode, Delivered, Rest, Deliver;
    if Free(rest, OPEN) {
      FrameAfterGarbage(Codec.Decode, rest, f);
    } else {
      OnePiece(Codec.Decode, rest, f);
      SpoiledFrame(rest, f);
    }
  }

  /**
   What a reader delivers from a stream of messages. A message without a `}` in its strings is delivered as
   it is. One with a `}` is lost, and lets go as many empty messages with number 0 as its strings have
   objects in the wrong place. Its neighbours never notice.
   */
  lemma {:induction false} ExactDelivery(ms: seq<Codec.Message>)
    ensures Delivered(Codec.Decode, Stream(Codec.Encode, ms)) == AllArriving(ms)
    ensures Rest(Stream(Codec.Encode, ms)) == []
  {
    hide Codec.Decode, Codec.Encode, Delivered, Rest, Arriving;
    forall i | 0 <= i < |ms| ensures EndsWithClose(Codec.Encode(ms[i])) { EncodeEnds(ms[i]); }
    FramesApart(Codec.Encode, Codec.Decode, ms);
    EachArriving(ms);
  }

  lemma {:induction false} EachArriving(ms: seq<Codec.Message>)
    ensures DeliveredEach(Codec.Encode, Codec.Decode, ms) == AllArriving(ms)
  {
    hide Codec.Decode, Codec.Encode, Delivered, Rest, Arriving;
    if ms != [] {
      FirstAfter([], ms[0]);
      assert [] + Codec.Encode(ms[0]) == Codec.Encode(ms[0]);
      EachArriving(ms[1..]);
    }
  }

  /** All messages arrive exactly when no string of any of them holds a `}`. */
  lemma AllArriveExactly(ms: seq<Codec.Message>)
    ensures Delivered(Codec.Decode, Stream(Codec.Encode, ms)) == ms <==> forall i :: 0 <= i < |ms| ==> Clean(ms[i])
  {
    hide *;
    ExactDelivery(ms);
    if forall i :: 0 <= i < |ms| ==> Clean(ms[i]) {
      CleanArrive(ms);
    }
    if AllArriving(ms) == ms {
      OnlyCleanArrive(ms);
      forall i | 0 <= i < |ms| ensures Clean(ms[i]) { assert ms[i] in AllArriving(ms); }
    }
  }

  lemma {:induction false} CleanArrive(ms: seq<Codec.Message>)
    requires forall i :: 0 <= i < |ms| ==> Clean(ms[i])
    ensures AllArriving(ms) == ms
  {
    hide Clean;
    if ms != [] {
      CleanArrive(ms[1..]);
      assert [ms[0]] + ms[1..] == ms;
    }
  }

  lemma {:induction false} OnlyCleanArrive(ms: seq<Codec.Message>)
    ensures forall d :: d in AllArriving(ms) ==> Clean(d) && (d in ms || d == Codec.EMPTY)
  {
    if ms != [] {
      OnlyCleanArrive(ms[1..]);
    }
  }

  /** Nothing but messages that were sent and empty ones with number 0 is ever delivered. */
  lemma NothingInvented(ms: seq<Codec.Message>)
    ensures forall d :: d in Delivered(Codec.Decode, Stream(Codec.Encode, ms)) ==> d in ms || d == Codec.EMPTY
  {
    hide Codec.Decode, Codec.Encode, Delivered, Clean;
    ExactDelivery(ms);
    OnlyCleanArrive(ms);
  }

  /** A message makes a reader hand on something that was not sent exactly when its strings have such a place. */
  lemma InjectsExactly(m: Codec.Message)
    ensures (exists d :: d in Delivered(Codec.Decode, Codec.Encode(m)) && d != m) <==> HasStray(Glue(m.messages))
  {
    hide Codec.Decode, Codec.Encode, Delivered, Strays, HasStray, Glue;
    FirstAfter([], m);
    assert [] + Codec.Encode(m) == Codec.Encode(m);
    StraysExactly(m.messages);
    var ds := Delivered(Codec.Decode, Codec.Encode(m));
    if Clean(m) {
      CleanNoStrays(m);
    } else {
      assert m != Codec.EMPTY;
      if Strays(m.messages) > 0 { assert ds[0] in ds; }
    }
  }

  lemma CleanNoStrays(m: Codec.Message)
    requires Clean(m)
    ensures Strays(m.messages) == 0
  {
    GlueClean(m.messages);
  }

  // Strings that begin with a closing brace and end with their second one.
  lemma OneStray(strings: seq<seq<rune>>, piece: seq<Mark>)
    requires Glue(strings) == [Letter(CLOSE)] + piece + [Letter(CLOSE)] && IsStray(piece)
    requires forall i :: 0 <= i < |piece| ==> piece[i] != Letter(CLOSE)
    ensures Strays(strings) == 1
  {
    hide IsStray, Glue;
    var ms, tail := Glue(strings), piece + [Letter(CLOSE)];
    assert ms == [Letter(CLOSE)] + tail && ms[1..] == tail;
    assert Find(ms, CLOSE) == 0;
    var k := Find(tail, CLOSE);
    assert tail[|piece|] == Letter(CLOSE);
    assert k == |piece|;
    assert tail[..k] == piece && tail[k + 1..] == [];
    assert Behind([]) == 0;
  }

  // The string `}{}`.
  const EXAMPLE := Codec.Message(4, [[CLOSE, OPEN, CLOSE]])

  /** One short string is enough for a number 0, at which a client drops its connection to the server. */
  lemma StrayExample()
    ensures Delivered(Codec.Decode, Codec.Encode(EXAMPLE)) == [Codec.EMPTY]
  {
    hide *;
    BlankStray();
    Alone(EXAMPLE);
  }

  lemma Alone(m: Codec.Message)
    ensures Delivered(Codec.Decode, Codec.Encode(m)) == Arriving(m)
    ensures !Clean(m) ==> Arriving(m) == Empties(Strays(m.messages))
  {
    hide Codec.Decode, Codec.Encode, Delivered, Clean, Strays;
    FirstAfter([], m);
    assert [] + Codec.Encode(m) == Codec.Encode(m);
  }

  lemma BlankStray()
    ensures Empties(Strays(EXAMPLE.messages)) == [Codec.EMPTY] && !Clean(EXAMPLE)
  {
    var rs := [CLOSE, OPEN, CLOSE];
    assert rs[0] == CLOSE && !CleanText(rs) && [rs][0] == rs;
    var piece := [Letter(OPEN)];
    assert Find(piece, OPEN) == 0 && piece[1..] == [];
    BlankObject([]);
    assert Letters(rs) == [Letter(CLOSE)] + piece + [Letter(CLOSE)];
    OneStray([rs], piece);
    assert Empties(1) == [Codec.EMPTY];
  }

  /** It can be spread over two strings, whose border is a key then. */
  lemma SpreadStray()
    ensures Strays([[CLOSE, OPEN], [COLON, '1' as int, CLOSE]]) == 1
  {
    var a, b := [CLOSE, OPEN], [COLON, '1' as int, CLOSE];
    var inner := [Border, Letter(COLON), Letter('1' as int)];
    var piece := [Letter(OPEN)] + inner;
    assert Letters(a) == [Letter(CLOSE), Letter(OPEN)] && Letters(b) == inner[1..] + [Letter(CLOSE)];
    assert [a, b][1..] == [b];
    assert Glue([a, b]) == [Letter(CLOSE)] + piece + [Letter(CLOSE)];
    assert Find(piece, OPEN) == 0 && piece[1..] == inner;
    SpreadObject();
    OneStray([a, b], piece);
  }

  lemma SpreadSkim()
    ensures Skim([Border, Letter(COLON), Letter('1' as int)]) == Some([Text([COMMA]), Colon, Num(Some(1))])
  {
    hide Classify;
    var one := [Letter('1' as int)];
    var colon := [Letter(COLON)] + one;
    Codec.IntRoundTrip(1);
    assert one[1..] == [] && one[..1] == one;
    assert WordRun(one) == 1 && Spelled(one) == ['1' as int] == Codec.EncodeInt(1);
    JoinedAssoc(Some([Num(Some(1))]), None, None);
    assert Skim(one) == Some([Num(Some(1))]);
    assert [Colon] + [Num(Some(1))] == [Colon, Num(Some(1))];
    assert colon[1..] == one && Skim(colon) == Some([Colon, Num(Some(1))]);
    var inner := [Border, Letter(COLON), Letter('1' as int)];
    assert [Text([COMMA])] + [Colon, Num(Some(1))] == [Text([COMMA]), Colon, Num(Some(1))];
    assert inner[1..] == colon;
  }

  lemma SpreadObject()
    ensures IsObject([Border, Letter(COLON), Letter('1' as int)])
  {
    hide Codec.Run, Skim;
    SpreadSkim();
    var p := Codec.INITIAL.(place := Codec.KeyOrEnd);
    var behind := [Num(Some(1))] + [Close];
    Codec.RunStep(Codec.INITIAL, Open, [Text([COMMA]), Colon] + behind);
    Codec.RunKey(p, [COMMA], behind);
    assert |Codec.NUMBER_KEY| == 8 && |Codec.STRINGS_KEY| == 8;
    Codec.RunStep(p.(place := Codec.Value), Num(Some(1)), [Close]);
    Codec.RunStep(p.(place := Codec.BehindValue), Close, []);
    assert [Open] + [Text([COMMA]), Colon, Num(Some(1))] + [Close] == [Open] + ([Text([COMMA]), Colon] + behind);
  }

  /**
   Garbage before the first message costs exactly that message, and only if a `{` is left behind the
   last `}` of the garbage.
   */
  lemma ExactResynchronisation(garbage: seq<byte>, ms: seq<Codec.Message>)
    requires ms != []
    ensures Delivered(Codec.Decode, garbage + Stream(Codec.Encode, ms))
         == Delivered(Codec.Decode, garbage)
            + (if Free(Rest(garbage), OPEN) then Arriving(ms[0]) else Remainder(ms[0]))
            + AllArriving(ms[1..])
  {
    hide *;
    var f, tail := Codec.Encode(ms[0]), Stream(Codec.Encode, ms[1..]);
    assert Stream(Codec.Encode, ms) == f + tail by { StreamCons(ms); }
    SplitStream(Codec.Decode, garbage, f + tail);
    var rest := Rest(garbage);
    assert rest + (f + tail) == (rest + f) + tail;
    FirstAfter(rest, ms[0]);
    SplitStream(Codec.Decode, rest + f, tail);
    assert [] + tail == tail;
    ExactDelivery(ms[1..]);
  }

  lemma StreamCons(ms: seq<Codec.Message>)
    requires ms != []
    ensures Stream(Codec.Encode, ms) == Codec.Encode(ms[0]) + Stream(Codec.Encode, ms[1..])
  {
    hide Codec.Encode;
  }
}
