/**
 The relay loop of one direction (internal/pkg/processor/main.go). One buffer is reused for every read,
 so what is written after a read is only as good as the length that read reported.
 */
module Relay {
  import opened Utf8
  import Sessions

  // What the peer sends next; `failed` is an error other than the end of the stream.
  datatype Chunk = Chunk(data: seq<byte>, failed: bool)

  /** The bytes up to the first empty chunk: an empty read ends the relay. */
  function Payload(chunks: seq<Chunk>): (s: seq<byte>) {
    if chunks == [] || chunks[0].data == [] then [] else chunks[0].data + Payload(chunks[1..])
  }

  function Size(chunks: seq<Chunk>): (n: nat) {
    if chunks == [] then 0 else |chunks[0].data| + Size(chunks[1..])
  }

  function Take(s: seq<byte>, n: nat): (r: seq<byte>) {
    if n <= |s| then s[..n] else s
  }

  /** A connection: what its peer will send, what it was sent, and how much more it accepts. */
  class Conn {
    var incoming: seq<Chunk>
    var written: seq<byte>
    var room: nat
    var closed: bool

    /** A chunk larger than the buffer is read in parts; the tail of the buffer keeps its old bytes. */
    method Read(z: array<byte>) returns (n: nat, failed: bool)
      modifies this`incoming, z
      ensures n <= z.Length
      ensures z.Length > 0 ==> (n == 0 <==> Payload(old(incoming)) == [])
      ensures z.Length > 0 ==> z[..n] + Payload(incoming) == Payload(old(incoming)) || n == 0
      ensures Size(incoming) + n == Size(old(incoming))
    {
      if incoming == [] {
        return 0, false;
      }
      var Chunk(data, err) := incoming[0];
      n := if |data| <= z.Length then |data| else z.Length;
      failed := err;
      forall i | 0 <= i < n { z[i] := data[i]; }
      if n == |data| {
        incoming := incoming[1..];
      } else {
        incoming := [Chunk(data[n..], err)] + incoming[1..];
      }
      assert z[..n] == data[..n] && data[..n] + data[n..] == data;
    }

    /** A short write is an error, and nothing is accepted after it. */
    method Write(data: seq<byte>) returns (n: nat, failed: bool)
      modifies this`written, this`room
      ensures n == if |data| <= old(room) then |data| else old(room)
      ensures written == old(written) + Take(data, old(room)) && room == old(room) - n
      ensures failed <==> n < |data|
    {
      n := if |data| <= room then |data| else room;
      written, room, failed := written + data[..n], room - n, n < |data|;
    }

    method Close()
      modifies this`closed
      ensures closed
    {
      closed := true;
    }
  }

  lemma TakeSplit(a: seq<byte>, b: seq<byte>, n: nat)
    ensures |a| <= n ==> Take(a + b, n) == a + Take(b, n - |a|)
    ensures n <= |a| ==> Take(a + b, n) == Take(a, n)
  {
  }

  /**
   The receiver gets exactly the payload, or as much of it as it accepts, whatever sizes the reads have
   and however small the buffer is; with a buffer of no bytes it gets nothing.
   */
  method Run(own: Conn, other: Conn, size: nat)
    requires own != other
    modifies own, other
    ensures other.written == old(other.written)
            + if size == 0 then [] else Take(Payload(old(own.incoming)), old(other.room))
    ensures own.closed && other.closed && own.written == old(own.written) && other.incoming == old(other.incoming)
  {
    hide Payload, Size, Take;
    var z := new byte[size];
    ghost var payload, sent := Payload(own.incoming), other.written;
    while true
      invariant other.written + Take(Payload(own.incoming), other.room) == sent + Take(payload, old(other.room))
      invariant size == 0 ==> other.written == sent
      invariant own.written == old(own.written) && other.incoming == old(other.incoming)
      decreases Size(own.incoming)
    {
      ghost var before, room := Payload(own.incoming), other.room;
      var n1, err1 := own.Read(z);
      var n2, err2 := other.Write(z[..n1]);
      TakeSplit(z[..n1], Payload(own.incoming), room);
      TakeAll(z[..n1], room);
      NothingLeft(Payload(own.incoming));
      if Sessions.Stops(n1, err1, n2, err2) {
        other.Close();
        break;
      }
    }
    own.Close();
  }

  lemma TakeAll(a: seq<byte>, n: nat)
    ensures |a| <= n ==> Take(a, n) == a
    ensures Take([], n) == []
  {
  }

  lemma NothingLeft(a: seq<byte>)
    ensures Take(a, 0) == []
  {
  }
}
