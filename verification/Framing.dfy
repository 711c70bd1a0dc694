/**
 Messages travel back to back without a separator. A reader cuts the byte stream behind every `}`, drops
 what stands before the first `{` of a piece, and skips every piece that does not parse
 (internal/pkg/processor/main.go). The decoder is a parameter here.
 */
module Framing {
  import opened Wrappers
  import opened Utf8

  const OPEN: byte := '{' as int
  const CLOSE: byte := '}' as int

  /** `bytes.Index` for one byte; the length when it does not occur. */
  function Index(s: seq<byte>, b: byte): (i: nat)
    ensures i <= |s| && forall j :: 0 <= j < i ==> s[j] != b
    ensures i < |s| ==> s[i] == b
  {
    if s == [] || s[0] == b then 0 else 1 + Index(s[1..], b)
  }

  // The frame at the front of a stream: it ends with its only `}`.
  predicate IsPiece(f: seq<byte>) {
    f != [] && f[|f| - 1] == CLOSE && forall j :: 0 <= j < |f| - 1 ==> f[j] != CLOSE
  }

  predicate Free(s: seq<byte>, b: byte) {
    forall j :: 0 <= j < |s| ==> s[j] != b
  }

  /** The pieces `ReadBytes('}')` returns, and the bytes it is still collecting. */
  function Frames(s: seq<byte>): (fs: seq<seq<byte>>)
    ensures forall i :: 0 <= i < |fs| ==> IsPiece(fs[i])
  {
    var k := Index(s, CLOSE);
    if k == |s| then [] else [s[..k + 1]] + Frames(s[k + 1..])
  }

  function Rest(s: seq<byte>): (r: seq<byte>)
    ensures Free(r, CLOSE)
  {
    var k := Index(s, CLOSE);
    if k == |s| then s else Rest(s[k + 1..])
  }

  /** Garbage in front of the first `{` is dropped; without one the whole piece is. */
  function Trimmed(f: seq<byte>): (r: Option<seq<byte>>)
    ensures r.Some? ==> r.value != [] && r.value[0] == OPEN
  {
    var k := Index(f, OPEN);
    if k < |f| then Some(f[k..]) else None
  }

  function Deliver<M>(decode: seq<byte> -> Option<M>, f: seq<byte>): (ms: seq<M>)
    ensures |ms| <= 1
  {
    match Trimmed(f)
    case None => []
    case Some(t) =>
      match decode(t)
      case None => []
      case Some(m) => [m]
  }

  function DeliverAll<M>(decode: seq<byte> -> Option<M>, fs: seq<seq<byte>>): (ms: seq<M>) {
    if fs == [] then [] else Deliver(decode, fs[0]) + DeliverAll(decode, fs[1..])
  }

  /** Everything a reader hands on from the stream `s`. */
  function Delivered<M>(decode: seq<byte> -> Option<M>, s: seq<byte>): (ms: seq<M>) {
    DeliverAll(decode, Frames(s))
  }

  // ---------------------------------------------------------------- the read loop

  class Reader<M> {
    const decode: seq<byte> -> Option<M>
    var pending: seq<byte>
    var delivered: seq<M>

    constructor (decode: seq<byte> -> Option<M>)
      ensures this.decode == decode && pending == [] && delivered == []
    {
      this.decode := decode;
      pending, delivered := [], [];
    }

    /** One turn of the loop: drop garbage, parse, hand on. */
    method Take(piece: seq<byte>)
      requires IsPiece(piece)
      modifies this`delivered
      ensures delivered == old(delivered) + Deliver(decode, piece)
    {
      var buff := piece;
      if buff[0] != OPEN {
        if Index(buff, OPEN) < |buff| {
          buff := buff[Index(buff, OPEN)..];
        } else {
          return;
        }
      }
      match decode(buff) {
        case Some(message) => delivered := delivered + [message];
        case None =>
      }
    }

    /** What one chunk off the socket makes the loop do until `ReadBytes` has to wait again. */
    method Feed(chunk: seq<byte>)
      modifies this
      ensures pending == Rest(old(pending) + chunk)
      ensures delivered == old(delivered) + Delivered(decode, old(pending) + chunk)
    {
      hide Index, Rest, Delivered, Deliver;
      ghost var stream := pending + chunk;
      pending := pending + chunk;
      while Index(pending, CLOSE) < |pending|
        invariant Rest(pending) == Rest(stream)
        invariant delivered + Delivered(decode, pending) == old(delivered) + Delivered(decode, stream)
        decreases |pending|
      {
        var k := Index(pending, CLOSE);
        var buff, rest := pending[..k + 1], pending[k + 1..];
        FirstPiece(decode, buff, rest);
        assert buff + rest == pending;
        pending := rest;
        Take(buff);
      }
      NoPiece(decode, pending);
    }

    method Receive(chunks: seq<seq<byte>>)
      requires Free(pending, CLOSE)
      modifies this
      ensures pending == Rest(old(pending) + Concat(chunks))
      ensures delivered == old(delivered) + Delivered(decode, old(pending) + Concat(chunks))
    {
      hide Rest, Delivered, Concat;
      ghost var start := pending;
      NoPiece(decode, start);
      ConcatNil();
      assert start + [] == start && chunks[..0] == [];
      for i := 0 to |chunks|
        invariant pending == Rest(start + Concat(chunks[..i]))
        invariant delivered == old(delivered) + Delivered(decode, start + Concat(chunks[..i]))
      {
        ghost var seen := start + Concat(chunks[..i]);
        Feed(chunks[i]);
        SplitStream(decode, seen, chunks[i]);
        ConcatSnoc(chunks, i);
        assert start + Concat(chunks[..i + 1]) == seen + chunks[i];
      }
      assert chunks[..|chunks|] == chunks;
    }
  }

  function Concat(chunks: seq<seq<byte>>): (s: seq<byte>) {
    if chunks == [] then [] else chunks[0] + Concat(chunks[1..])
  }

  lemma ConcatNil()
    ensures Concat([]) == []
  {
  }

  lemma {:induction false} ConcatSnoc(chunks: seq<seq<byte>>, i: nat)
    requires i < |chunks|
    ensures Concat(chunks[..i + 1]) == Concat(chunks[..i]) + chunks[i]
  {
    if i == 0 {
      assert chunks[..1] == [chunks[0]];
    } else {
      assert chunks[..i + 1][1..] == chunks[1..][..i] && chunks[..i][1..] == chunks[1..][..i - 1];
      ConcatSnoc(chunks[1..], i - 1);
    }
  }

  // ---------------------------------------------------------------- chunking

  lemma IndexIs(s: seq<byte>, b: byte, i: nat)
    requires i < |s| && s[i] == b && forall j :: 0 <= j < i ==> s[j] != b
    ensures Index(s, b) == i
  {
  }

  lemma FirstPiece<M>(decode: seq<byte> -> Option<M>, f: seq<byte>, s: seq<byte>)
    requires IsPiece(f)
    ensures Frames(f + s) == [f] + Frames(s) && Rest(f + s) == Rest(s)
    ensures Delivered(decode, f + s) == Deliver(decode, f) + Delivered(decode, s)
    ensures Trimmed(f) == if f[0] == OPEN then Some(f)
                          else if Index(f, OPEN) < |f| then Some(f[Index(f, OPEN)..]) else None
  {
    hide Deliver;
    IndexIs(f + s, CLOSE, |f| - 1);
    assert (f + s)[..|f|] == f && (f + s)[|f|..] == s;
    if f[0] == OPEN { IndexIs(f, OPEN, 0); }
    assert ([f] + Frames(s))[1..] == Frames(s);
  }

  lemma NoPiece<M>(decode: seq<byte> -> Option<M>, s: seq<byte>)
    requires Free(s, CLOSE)
    ensures Frames(s) == [] && Rest(s) == s && Delivered(decode, s) == []
  {
  }

  // A stream is a piece and the stream behind it, or has no `}` at all.
  lemma {:induction false} SplitStream<M>(decode: seq<byte> -> Option<M>, a: seq<byte>, b: seq<byte>)
    ensures Delivered(decode, a + b) == Delivered(decode, a) + Delivered(decode, Rest(a) + b)
    ensures Rest(a + b) == Rest(Rest(a) + b)
    decreases |a|
  {
    hide Rest, Delivered, Deliver, Frames, Index, Trimmed;
    var k := Index(a, CLOSE);
    if k < |a| {
      var f, rest := a[..k + 1], a[k + 1..];
      assert f + rest == a && f + (rest + b) == a + b;
      FirstPiece(decode, f, rest);
      FirstPiece(decode, f, rest + b);
      SplitStream(decode, rest, b);
    } else {
      NoPiece(decode, a);
    }
  }

  // ---------------------------------------------------------------- writer and reader

  function Stream<M>(encode: M -> seq<byte>, ms: seq<M>): (s: seq<byte>) {
    if ms == [] then [] else encode(ms[0]) + Stream(encode, ms[1..])
  }

  /** One frame: its only `}` is its last byte. */
  predicate WellFramed(f: seq<byte>) {
    IsPiece(f) && f[0] == OPEN
  }

  // Bytes without a `}` followed by a frame make one piece.
  lemma OnePiece<M>(decode: seq<byte> -> Option<M>, rest: seq<byte>, f: seq<byte>)
    requires Free(rest, CLOSE) && IsPiece(f)
    ensures Delivered(decode, rest + f) == Deliver(decode, rest + f) && Rest(rest + f) == []
  {
    hide Deliver;
    FirstPiece(decode, rest + f, []);
    assert (rest + f) + [] == rest + f;
    NoPiece(decode, []);
  }

  /** A frame behind garbage without braces is decoded as if it stood alone. */
  lemma FrameAfterGarbage<M>(decode: seq<byte> -> Option<M>, garbage: seq<byte>, f: seq<byte>)
    requires Free(garbage, CLOSE) && Free(garbage, OPEN) && WellFramed(f)
    ensures Delivered(decode, garbage + f) == match decode(f) case Some(m) => [m] case None => []
    ensures Rest(garbage + f) == []
  {
    OnePiece(decode, garbage, f);
    IndexIs(garbage + f, OPEN, |garbage|);
    assert (garbage + f)[|garbage|..] == f;
  }

  // Whatever else it contains, nothing of it is left to collect.
  predicate EndsWithClose(f: seq<byte>) {
    f != [] && f[|f| - 1] == CLOSE
  }

  lemma NothingLeft(f: seq<byte>)
    requires EndsWithClose(f)
    ensures Rest(f) == []
  {
    hide Rest;
    var decode: seq<byte> -> Option<int> := _ => None;
    var a := f[..|f| - 1];
    assert f == a + [CLOSE];
    SplitStream(decode, a, [CLOSE]);
    OnePiece(decode, Rest(a), [CLOSE]);
  }

  // What a reader makes of every message on its own.
  function DeliveredEach<A, M>(encode: A -> seq<byte>, decode: seq<byte> -> Option<M>, ms: seq<A>): (r: seq<M>) {
    if ms == [] then [] else Delivered(decode, encode(ms[0])) + DeliveredEach(encode, decode, ms[1..])
  }

  /**
   Neighbours in a stream never disturb each other, for any decoder and whatever the messages contain, as
   long as each of them ends with a `}`.
   */
  lemma {:induction false} FramesApart<A, M>(encode: A -> seq<byte>, decode: seq<byte> -> Option<M>, ms: seq<A>)
    requires forall i :: 0 <= i < |ms| ==> EndsWithClose(encode(ms[i]))
    ensures Delivered(decode, Stream(encode, ms)) == DeliveredEach(encode, decode, ms)
    ensures Rest(Stream(encode, ms)) == []
  {
    hide Delivered, Rest;
    if ms == [] {
      NoPiece(decode, []);
    } else {
      var f, tail := encode(ms[0]), Stream(encode, ms[1..]);
      NothingLeft(f);
      SplitStream(decode, f, tail);
      assert [] + tail == tail;
      FramesApart(encode, decode, ms[1..]);
    }
  }

  ghost predicate Carries<M>(encode: M -> seq<byte>, decode: seq<byte> -> Option<M>, m: M) {
    WellFramed(encode(m)) && decode(encode(m)) == Some(m)
  }

  lemma {:induction false} EachCarried<M>(encode: M -> seq<byte>, decode: seq<byte> -> Option<M>, ms: seq<M>)
    requires forall m :: m in ms ==> Carries(encode, decode, m)
    ensures DeliveredEach(encode, decode, ms) == ms
  {
    hide Delivered, Rest, WellFramed, Free;
    if ms != [] {
      var f := encode(ms[0]);
      assert Carries(encode, decode, ms[0]);
      FrameAlone(decode, f);
      EachCarried(encode, decode, ms[1..]);
      assert [ms[0]] + ms[1..] == ms;
    }
  }

  lemma FrameAlone<M>(decode: seq<byte> -> Option<M>, f: seq<byte>)
    requires WellFramed(f)
    ensures Delivered(decode, f) == match decode(f) case Some(m) => [m] case None => []
  {
    hide Delivered;
    FrameAfterGarbage(decode, [], f);
    assert [] + f == f;
  }

  /** What is written is delivered, in order and once, for any encoder and decoder that agree on single messages. */
  lemma RoundTrip<M>(encode: M -> seq<byte>, decode: seq<byte> -> Option<M>, ms: seq<M>)
    requires forall m :: m in ms ==> Carries(encode, decode, m)
    ensures Delivered(decode, Stream(encode, ms)) == ms && Rest(Stream(encode, ms)) == []
  {
    hide Delivered, Rest, Stream, DeliveredEach;
    forall i | 0 <= i < |ms| ensures EndsWithClose(encode(ms[i])) {
      assert Carries(encode, decode, ms[i]);
    }
    FramesApart(encode, decode, ms);
    EachCarried(encode, decode, ms);
  }

  /** After any garbage every frame but the first is delivered, and the first too unless a `{` is left before it. */
  lemma Resynchronises<M>(encode: M -> seq<byte>, decode: seq<byte> -> Option<M>, garbage: seq<byte>, ms: seq<M>)
    requires ms != [] && forall m :: m in ms ==> Carries(encode, decode, m)
    ensures var first := Delivered(decode, Rest(garbage) + encode(ms[0]));
            && Delivered(decode, garbage + Stream(encode, ms)) == Delivered(decode, garbage) + first + ms[1..]
            && |first| <= 1
            && (Free(Rest(garbage), OPEN) ==> first == [ms[0]])
    ensures Rest(garbage + Stream(encode, ms)) == []
  {
    hide Delivered, Rest;
    var f, tail := encode(ms[0]), Stream(encode, ms[1..]);
    assert Carries(encode, decode, ms[0]);
    SplitStream(decode, garbage, f + tail);
    var rest := Rest(garbage);
    assert rest + (f + tail) == (rest + f) + tail;
    OnePiece(decode, rest, f);
    SplitStream(decode, rest + f, tail);
    assert [] + tail == tail;
    RoundTrip(encode, decode, ms[1..]);
    if Free(rest, OPEN) {
      FrameAfterGarbage(decode, rest, f);
    }
  }
}
