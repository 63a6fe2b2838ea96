/** Typed messages over a byte ring: the codecs, and what the reader's ever-growing buffer does to
    the values that come out. */
module TypedMessages {
  import opened Arithmetic
  import opened Bytes
  import opened RingLayout
  import opened RingBuffer

  datatype Option<T> = None | Some(value: T)

  // ---- Codecs --------------------------------------------------------------------------------

  /** A trivially copyable type of `width` bytes, a string, or a vector of `width`-byte elements. */
  datatype Codec = Fixed(width: nat) | Text | Vector(width: nat)

  datatype Value = Raw(bytes: seq<byte>) | Str(chars: seq<byte>) | Vec(items: seq<seq<byte>>)

  predicate Typed(c: Codec, v: Value) {
    match c
    case Fixed(w) => w > 0 && v.Raw? && |v.bytes| == w
    case Text => v.Str?
    case Vector(w) => w > 0 && v.Vec? && forall i :: 0 <= i < |v.items| ==> |v.items[i]| == w
  }

  function Flatten(items: seq<seq<byte>>): seq<byte> {
    if items == [] then [] else items[0] + Flatten(items[1..])
  }

  /** The first `n` elements of `w` bytes. */
  function Chunks(bs: seq<byte>, w: nat, n: nat): (items: seq<seq<byte>>)
    requires n * w <= |bs|
    ensures |items| == n
    decreases n
  {
    if n == 0 then [] else
      assert n * w == w + (n - 1) * w;
      [bs[..w]] + Chunks(bs[w..], w, n - 1)
  }

  function Encode(v: Value): seq<byte> {
    match v
    case Raw(bs) => bs
    case Str(cs) => cs
    case Vec(items) => Flatten(items)
  }

  function Decode(c: Codec, payload: seq<byte>): Option<Value>
    requires c.Text? || c.width > 0
  {
    match c
    case Fixed(w) => if |payload| != w then None else Some(Raw(payload))
    case Text => Some(Str(payload))
    case Vector(w) =>
      if |payload| % w != 0 then None
      else
        assert (|payload| / w) * w == |payload|;
        Some(Vec(Chunks(payload, w, |payload| / w)))
  }

  lemma {:induction false} FlattenLength(items: seq<seq<byte>>, w: nat)
    requires forall i :: 0 <= i < |items| ==> |items[i]| == w
    ensures |Flatten(items)| == |items| * w
  {
    if items != [] {
      FlattenLength(items[1..], w);
      assert |items| * w == w + (|items| - 1) * w;
    }
  }

  lemma {:induction false} ChunksFlatten(items: seq<seq<byte>>, w: nat)
    requires forall i :: 0 <= i < |items| ==> |items[i]| == w
    ensures |Flatten(items)| == |items| * w && Chunks(Flatten(items), w, |items|) == items
  {
    FlattenLength(items, w);
    if items != [] {
      ChunksFlatten(items[1..], w);
      var bs := Flatten(items);
      assert bs[..w] == items[0] && bs[w..] == Flatten(items[1..]);
    }
  }

  lemma {:induction false} FlattenChunks(bs: seq<byte>, w: nat, n: nat)
    requires n * w == |bs|
    ensures Flatten(Chunks(bs, w, n)) == bs
    ensures forall i :: 0 <= i < n ==> |Chunks(bs, w, n)[i]| == w
    decreases n
  {
    if n > 0 {
      assert n * w == w + (n - 1) * w;
      FlattenChunks(bs[w..], w, n - 1);
      assert Chunks(bs, w, n)[1..] == Chunks(bs[w..], w, n - 1);
    }
  }

  /** What a codec encodes it decodes. */
  lemma CodecRoundTrip(c: Codec, v: Value)
    requires Typed(c, v)
    ensures Decode(c, Encode(v)) == Some(v)
  {
    if c.Vector? {
      var w, n := c.width, |v.items|;
      ChunksFlatten(v.items, w);
      DivModUnique(n * w, w, n, 0);
    }
  }

  /** Decoding is exactly the inverse of encoding the values of the codec's type: it succeeds on every
      payload for a string, on the right length for a fixed width, on whole elements for a vector,
      and yields the one value of that type that encodes to the payload. */
  lemma DecodeExact(c: Codec, payload: seq<byte>, v: Value)
    requires c.Text? || c.width > 0
    ensures Decode(c, payload) == Some(v) <==> Typed(c, v) && Encode(v) == payload
    ensures Decode(c, payload).None? <==>
      (c.Fixed? && |payload| != c.width) || (c.Vector? && |payload| % c.width != 0)
  {
    if Typed(c, v) && Encode(v) == payload {
      CodecRoundTrip(c, v);
    }
    if c.Vector? && |payload| % c.width == 0 {
      assert (|payload| / c.width) * c.width == |payload|;
      FlattenChunks(payload, c.width, |payload| / c.width);
    }
  }

  // ---- The reader's buffer -----------------------------------------------------------------------

  /** The buffer after receiving the payloads `ps`, oldest first. */
  function BufferAfter(ps: seq<seq<byte>>): seq<byte> {
    if ps == [] then [] else Overlay(BufferAfter(ps[..|ps| - 1]), ps[|ps| - 1])
  }

  function MaxLength(ps: seq<seq<byte>>): nat {
    if ps == [] then 0
    else
      var rest, last := MaxLength(ps[..|ps| - 1]), |ps[|ps| - 1]|;
      if rest < last then last else rest
  }

  lemma {:induction false} MaxLengthBounds(ps: seq<seq<byte>>, n: nat)
    ensures MaxLength(ps) <= n <==> forall i :: 0 <= i < |ps| ==> |ps[i]| <= n
  {
    if ps != [] {
      MaxLengthBounds(ps[..|ps| - 1], n);
      assert forall i :: 0 <= i < |ps| - 1 ==> ps[..|ps| - 1][i] == ps[i];
    }
  }

  /** `ps[i]` is the last payload longer than `j`. */
  predicate LastLonger(ps: seq<seq<byte>>, j: nat, i: nat) {
    i < |ps| && j < |ps[i]| && forall k :: i < k < |ps| ==> |ps[k]| <= j
  }

  lemma StillLast(ps: seq<seq<byte>>, j: nat, i: nat)
    requires ps != [] && LastLonger(ps[..|ps| - 1], j, i) && |ps[|ps| - 1]| <= j
    ensures LastLonger(ps, j, i) && ps[i] == ps[..|ps| - 1][i]
  {
    var front := ps[..|ps| - 1];
    assert forall k :: i < k < |front| ==> front[k] == ps[k];
  }

  /** The buffer is as long as the longest payload, and each byte comes from the last payload that
      was long enough to have it. */
  lemma {:induction false} BufferExact(ps: seq<seq<byte>>, j: nat) returns (i: nat)
    ensures |BufferAfter(ps)| == MaxLength(ps)
    ensures j < MaxLength(ps) ==> LastLonger(ps, j, i) && BufferAfter(ps)[j] == ps[i][j]
  {
    i := 0;
    if ps != [] {
      var front, p := ps[..|ps| - 1], ps[|ps| - 1];
      i := BufferExact(front, j);
      if j < |p| {
        i := |ps| - 1;
      } else if j < MaxLength(front) {
        StillLast(ps, j, i);
      }
    }
  }

  /** Receiving `p` after `ps` leaves exactly `p` in the buffer if and only if nothing longer was
      received before. */
  lemma BufferIsLast(ps: seq<seq<byte>>, p: seq<byte>)
    ensures BufferAfter(ps + [p]) == p <==> forall i :: 0 <= i < |ps| ==> |ps[i]| <= |p|
    ensures |BufferAfter(ps + [p])| == |p| <==> BufferAfter(ps + [p]) == p
  {
    assert (ps + [p])[..|ps|] == ps;
    var _ := BufferExact(ps, 0);
    MaxLengthBounds(ps, |p|);
  }

  /** A value comes out as it went in if and only if nothing longer was received before. */
  lemma TypedRoundTrip(c: Codec, v: Value, ps: seq<seq<byte>>)
    requires Typed(c, v)
    ensures Decode(c, BufferAfter(ps + [Encode(v)])) == Some(v)
       <==> forall i :: 0 <= i < |ps| ==> |ps[i]| <= |Encode(v)|
  {
    var p := Encode(v);
    BufferIsLast(ps, p);
    CodecRoundTrip(c, v);
    if Decode(c, BufferAfter(ps + [p])) == Some(v) {
      DecodeExact(c, BufferAfter(ps + [p]), v);
    }
  }

  /** A fixed-width value decodes if and only if the longest payload so far has its width - even if
      the last one is shorter and the rest of the bytes are left over. */
  lemma FixedDecodesExactly(w: nat, ps: seq<seq<byte>>)
    requires w > 0
    ensures Decode(Fixed(w), BufferAfter(ps)).Some? <==> MaxLength(ps) == w
  {
    var _ := BufferExact(ps, 0);
  }

  /** A vector decodes if and only if the longest payload so far is a whole number of elements. */
  lemma VectorDecodesExactly(w: nat, ps: seq<seq<byte>>)
    requires w > 0
    ensures Decode(Vector(w), BufferAfter(ps)).Some? <==> MaxLength(ps) % w == 0
  {
    var _ := BufferExact(ps, 0);
  }

  // ---- Writer and reader -------------------------------------------------------------------------

  /** The bytes that go out: as many as the 32-bit length says. */
  function Sent(v: Value): (bs: seq<byte>)
    ensures |bs| < TWO32 && bs <= Encode(v)
  {
    Encode(v)[..|Encode(v)| % TWO32]
  }

  /** A value goes out whole if and only if its encoding is shorter than 2^32 bytes. */
  lemma SentWhole(v: Value)
    ensures Sent(v) == Encode(v) <==> |Encode(v)| < TWO32
  {
    if |Encode(v)| < TWO32 {
      assert Encode(v)[..|Encode(v)|] == Encode(v);
    }
  }

  class Writer {
    const ring: Ring

    constructor (r: Ring)
      ensures ring == r
    {
      ring := r;
    }

    /** `try_push_typed`, on the multi-producer ring: the length is cast to 32 bits on its way. */
    method TryPushTyped(c: Codec, v: Value, typ: nat) returns (ok: bool)
      requires Typed(c, v) && typ < 0x1_0000
      requires ring.Valid() && ring.tailReserve == ring.tailPublish
      modifies ring, ring.ring
      ensures ring.Valid() && ring.tailReserve == ring.tailPublish
      ensures ok == old(Accepts(ring.cap, ring.headPublish, ring.tailPublish, Buffer(Sent(v))))
      ensures ring.Contents() == old(ring.Contents())
        + if ok then [Message(typ, Sent(v), (old(ring.sequence) + 1) % TWO64)] else []
    {
      hide Encode, Accepts, AfterShared;
      var bytes := Encode(v);
      var size := |bytes| % TWO32;
      ok := ring.PushShared(Buffer(bytes[..size]), typ);
    }
  }

  class Reader {
    const ring: Ring
    var buffer: seq<byte>
    var typ: nat
    var number: nat
    /** Every payload received so far. */
    ghost var received: seq<seq<byte>>

    ghost predicate Valid()
      reads this, ring, ring.ring
    {
      ring.Valid() && buffer == BufferAfter(received)
    }

    constructor (r: Ring)
      requires r.Valid()
      ensures Valid() && ring == r && received == []
    {
      ring, buffer, typ, number := r, [], 0, 0;
      received := [];
    }

    /** `try_pop(MessageView&)`. */
    method TryPop() returns (ok: bool)
      requires Valid()
      modifies this, ring`headReserve, ring`headPublish
      ensures Valid()
      ensures ok == (old(ring.Contents()) != [])
      ensures ok ==>
        && ring.Contents() == old(ring.Contents())[1..]
        && received == old(received) + [old(ring.Contents())[0].payload]
        && typ == old(ring.Contents())[0].typ && number == old(ring.Contents())[0].sequence
      ensures !ok ==> ring.Contents() == [] && received == old(received) && typ == old(typ) && number == old(number)
    {
      ghost var ms := ring.Contents();
      var out, t, n;
      ok, out, t, n := ring.TryPop(buffer, typ, number);
      buffer, typ, number := out, t, n;
      if ok {
        received := received + [ms[0].payload];
        assert received[..|received| - 1] == old(received);
      }
    }

    /** `try_pop_typed`: a message of another type, or one that does not decode, is consumed and
        lost. */
    method TryPopTyped(expected: nat, c: Codec) returns (v: Option<Value>)
      requires Valid() && (c.Text? || c.width > 0)
      modifies this, ring`headReserve, ring`headPublish
      ensures Valid()
      ensures old(ring.Contents()) == [] ==> v == None && ring.Contents() == [] && received == old(received)
      ensures old(ring.Contents()) != [] ==>
        && ring.Contents() == old(ring.Contents())[1..]
        && received == old(received) + [old(ring.Contents())[0].payload]
        && v == if old(ring.Contents())[0].typ == expected then Decode(c, BufferAfter(received)) else None
    {
      var ok := TryPop();
      if !ok || typ != expected {
        return None;
      }
      v := Decode(c, buffer);
    }
  }
}
