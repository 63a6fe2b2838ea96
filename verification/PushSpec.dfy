/** What one uncontended push does to the bytes, and what it means for the decoded queue. */
module PushSpec {
  import opened Arithmetic
  import opened Bytes
  import opened RingLayout
  import opened RingWriter
  import opened RingDecode

  /** A whole header. */
  function HeaderBytes(size: nat, typ: nat, flags: nat, sequence: nat): (bs: seq<byte>)
    ensures |bs| == HEADER
  {
    LE(size, 4) + LE(typ, 2) + LE(flags, 2) + LE(sequence, 8)
  }

  /** Distance from offset `t` to the capacity boundary. */
  function Remaining(cap: nat, t: nat): (r: nat)
    requires cap > 0
    ensures 0 < r <= cap
  {
    cap - Pos(t, cap)
  }

  /** The bytes once the padding in front of the record is marked. */
  function PadMem(cap: nat, mem: seq<byte>, t: nat, pad: nat): (m: seq<byte>)
    requires 0 < cap == |mem|
    ensures |m| == cap
  {
    if pad > 0 && Remaining(cap, t) >= HEADER then Write(mem, Pos(t, cap), HeaderBytes(0, 0, WRAP_FLAG, 0)) else mem
  }

  function RecordMem(mem: seq<byte>, at: nat, req: Request, sequence: nat): (m: seq<byte>)
    requires at + RecordSize(|req.payload|) <= |mem|
    ensures |m| == |mem|
  {
    Write(mem, at, HeaderBytes(|req.payload|, req.typ, 0, sequence) + req.payload)
  }

  /** Position of the record behind `pad` bytes of padding at `t`. */
  function RecordAt(cap: nat, t: nat, pad: nat): nat
    requires cap > 0
  {
    if pad > 0 then 0 else Pos(t, cap)
  }

  /** The shared writer and the single-producer writer accept a request under the same condition. */
  predicate Fits(cap: nat, h: nat, t: nat, n: nat)
    requires cap > 0
  {
    RecordSize(n) <= cap && Place(cap, h, t, n).Placed?
  }

  function PadFor(cap: nat, t: nat, n: nat): nat
    requires cap > 0
  {
    if Remaining(cap, t) < HEADER || Remaining(cap, t) < RecordSize(n) then Remaining(cap, t) else 0
  }

  /** Everything a push that fits leaves in the ring. */
  function PushMem(cap: nat, mem: seq<byte>, t: nat, req: Request, sequence: nat): (m: seq<byte>)
    requires 0 < cap == |mem| && RecordSize(|req.payload|) <= cap
    ensures |m| == cap
  {
    var pad := PadFor(cap, t, |req.payload|);
    RecordMem(PadMem(cap, mem, t, pad), RecordAt(cap, t, pad), req, sequence)
  }

  function PushTail(cap: nat, t: nat, n: nat): nat
    requires cap > 0
  {
    t + PadFor(cap, t, n) + RecordSize(n)
  }

  // ---- Bytes written, bytes kept ------------------------------------------------------------

  lemma WriteConcat(m: seq<byte>, p: nat, x: seq<byte>, y: seq<byte>)
    requires p + |x| + |y| <= |m|
    ensures Write(Write(m, p, x), p + |x|, y) == Write(m, p, x + y)
  {}

  /** The number stored over the zero in a finished header is as good as stored with it. */
  lemma Renumber(m: seq<byte>, at: nat, req: Request, sequence: nat)
    requires at + RecordSize(|req.payload|) <= |m|
    ensures Write(RecordMem(m, at, req, 0), at + 8, LE(sequence, 8)) == RecordMem(m, at, req, sequence)
  {}

  lemma FieldsRead(m: seq<byte>, p: nat, size: nat, typ: nat, flags: nat, sequence: nat)
    requires Holds(m, p, HeaderBytes(size, typ, flags, sequence))
    ensures HeaderFields(m, p, size, typ, flags, sequence, 4)
  {
    forall j | 0 <= j < 4 ensures Holds(m, FieldAt(p, j), FieldBytes(size, typ, flags, sequence, j)) {
      FieldRead(m, p, size, typ, flags, sequence, j);
    }
  }

  lemma FieldRead(m: seq<byte>, p: nat, size: nat, typ: nat, flags: nat, sequence: nat, j: nat)
    requires Holds(m, p, HeaderBytes(size, typ, flags, sequence)) && j < 4
    ensures Holds(m, FieldAt(p, j), FieldBytes(size, typ, flags, sequence, j))
  {
    hide LE;
    var bs, o, fs := HeaderBytes(size, typ, flags, sequence), FieldAt(0, j), FieldBytes(size, typ, flags, sequence, j);
    assert bs[o..o + |fs|] == fs;
    assert forall i :: p <= i < p + |bs| ==> m[i] == bs[i - p];
  }

  /** A record that has been written reads back as the message. */
  lemma RecordReadsBack(cap: nat, m: seq<byte>, lo: nat, req: Request, sequence: nat)
    requires 0 < cap == |m| && ValidRequest(req) && Pos(lo, cap) + RecordSize(|req.payload|) <= cap
    ensures ReadsAs(cap, RecordMem(m, Pos(lo, cap), req, sequence), lo,
                    Message(req.typ, req.payload, sequence % TWO64))
  {
    var at := Pos(lo, cap);
    var h := HeaderBytes(|req.payload|, req.typ, 0, sequence);
    var m' := RecordMem(m, at, req, sequence);
    assert m'[at..at + HEADER] == h;
    FieldsRead(m', at, |req.payload|, req.typ, 0, sequence);
    LoadHeader(m', at, |req.payload|, req.typ, 0, sequence);
    assert m'[at + HEADER..at + HEADER + |req.payload|] == req.payload;
  }

  lemma WrapReadsBack(m: seq<byte>, at: nat)
    requires at + HEADER <= |m|
    ensures IsWrap(FlagsField(Write(m, at, HeaderBytes(0, 0, WRAP_FLAG, 0)), at))
  {
    var h := HeaderBytes(0, 0, WRAP_FLAG, 0);
    HoldsWritten(m, at, h);
    FieldsRead(Write(m, at, h), at, 0, 0, WRAP_FLAG, 0);
    LoadHeader(Write(m, at, h), at, 0, 0, WRAP_FLAG, 0);
  }

  /** Bytes outside `[p, p + n)` are the same. */
  predicate SameBut(m: seq<byte>, m': seq<byte>, p: nat, n: nat) {
    |m| == |m'| && SameOn(m, m', 0, p) && SameOn(m, m', p + n, |m|)
  }

  /** A frame whose bytes are kept reads the same. */
  lemma HeaderSame(m: seq<byte>, m': seq<byte>, at: nat)
    requires at + HEADER <= |m| && SameOn(m, m', at, at + HEADER)
    ensures FlagsField(m', at) == FlagsField(m, at) && SizeField(m', at) == SizeField(m, at)
    ensures TypeField(m', at) == TypeField(m, at) && SequenceField(m', at) == SequenceField(m, at)
  {
    assert m[at..at + 4] == m'[at..at + 4];
    assert m[at + 4..at + 6] == m'[at + 4..at + 6];
    assert m[at + 6..at + 8] == m'[at + 6..at + 8];
    assert m[at + 8..at + 16] == m'[at + 8..at + 16];
  }

  /** Size of the frame that decoding finds at `h`. */
  function FrameSize(cap: nat, m: seq<byte>, h: nat): (n: nat)
    requires 0 < cap == |m|
    ensures n > 0
  {
    var s := See(cap, m, h);
    if s.Take? then RecordSize(|s.m.payload|) else cap - Pos(h, cap)
  }

  lemma ParsedFrame(cap: nat, m: seq<byte>, h: nat, t: nat)
    requires 0 < cap == |m| && h < t && Decode(cap, m, h, t).Parsed?
    ensures Pos(h, cap) + FrameSize(cap, m, h) <= cap && h + FrameSize(cap, m, h) <= t
    ensures !See(cap, m, h).Bad? && Decode(cap, m, h + FrameSize(cap, m, h), t).Parsed?
  {}

  /** A frame whose bytes are kept looks the same. */
  lemma SeeKept(cap: nat, m: seq<byte>, m': seq<byte>, h: nat)
    requires 0 < cap == |m| == |m'| && !See(cap, m, h).Bad?
    requires SameOn(m, m', Pos(h, cap), Pos(h, cap) + FrameSize(cap, m, h))
    ensures See(cap, m', h) == See(cap, m, h)
  {
    var at := Pos(h, cap);
    if cap - at >= HEADER {
      HeaderSame(m, m', at);
      if !IsWrap(FlagsField(m, at)) {
        var n := SizeField(m, at);
        assert m[at + HEADER..at + HEADER + n] == m'[at + HEADER..at + HEADER + n];
      }
    }
  }

  /** A frame in front of the rest. */
  function Join(s: Seen, rest: Decoded): Decoded {
    match s
    case Skip => rest
    case Take(m) => Cons(m, rest)
    case Bad => Malformed
  }

  lemma DecodeOpens(cap: nat, m: seq<byte>, h: nat, t: nat)
    requires 0 < cap == |m| && h < t
    ensures Decode(cap, m, h, t) == Join(See(cap, m, h), Decode(cap, m, h + FrameSize(cap, m, h), t))
  {}

  lemma DecodeEmpty(cap: nat, m: seq<byte>, t: nat)
    requires 0 < cap == |m|
    ensures Decode(cap, m, t, t) == Parsed([])
  {}

  lemma DecodeSame(cap: nat, m: seq<byte>, m': seq<byte>, h: nat, t: nat)
    requires 0 < cap == |m| == |m'| && h < t && See(cap, m', h) == See(cap, m, h)
    requires Decode(cap, m', h + FrameSize(cap, m, h), t) == Decode(cap, m, h + FrameSize(cap, m, h), t)
    ensures Decode(cap, m', h, t) == Decode(cap, m, h, t)
  {
    hide Decode, See, Join, Pos;
    DecodeOpens(cap, m, h, t);
    DecodeOpens(cap, m', h, t);
  }

  lemma Untouched(cap: nat, m: seq<byte>, m': seq<byte>, h: nat, s: nat, lo: nat, n: nat)
    requires 0 < cap && 0 < s && 0 < n && h + s <= lo && lo + n <= h + cap
    requires Pos(h, cap) + s <= cap && Pos(lo, cap) + n <= cap && SameBut(m, m', Pos(lo, cap), n)
    ensures SameOn(m, m', Pos(h, cap), Pos(h, cap) + s)
  {
    PhysicalDisjoint(h, s, lo, n, cap);
  }

  /** Writing behind the tail, within the capacity, does not disturb what is queued. */
  lemma {:induction false} DecodeKept(cap: nat, m: seq<byte>, m': seq<byte>, h: nat, t: nat, lo: nat, n: nat)
    requires 0 < cap == |m| == |m'| && h <= t && Decode(cap, m, h, t).Parsed?
    requires 0 < n && t <= lo && lo + n <= h + cap && Pos(lo, cap) + n <= cap
    requires SameBut(m, m', Pos(lo, cap), n)
    ensures Decode(cap, m', h, t) == Decode(cap, m, h, t)
    decreases t - h
  {
    hide *;
    if h == t {
      DecodeEmpty(cap, m, t);
      DecodeEmpty(cap, m', t);
      return;
    }
    var s := FrameSize(cap, m, h);
    ParsedFrame(cap, m, h, t);
    Untouched(cap, m, m', h, s, lo, n);
    SeeKept(cap, m, m', h);
    DecodeKept(cap, m, m', h + s, t, lo, n);
    DecodeSame(cap, m, m', h, t);
  }

  /** Decoding a region and then the next one is decoding both. */
  lemma {:induction false} DecodeAppend(cap: nat, m: seq<byte>, h: nat, t: nat, t': nat)
    requires 0 < cap == |m| && h <= t <= t'
    requires Decode(cap, m, h, t).Parsed? && Decode(cap, m, t, t').Parsed?
    ensures Decode(cap, m, h, t') == Parsed(Decode(cap, m, h, t).ms + Decode(cap, m, t, t').ms)
    decreases t - h
  {
    hide See;
    if h < t {
      var s := FrameSize(cap, m, h);
      ParsedFrame(cap, m, h, t);
      DecodeAppend(cap, m, h + s, t, t');
      var a, b := Decode(cap, m, h + s, t).ms, Decode(cap, m, t, t').ms;
      var seen := See(cap, m, h);
      if seen.Take? {
        assert [seen.m] + (a + b) == ([seen.m] + a) + b;
      }
    } else {
      assert [] + Decode(cap, m, t, t').ms == Decode(cap, m, t, t').ms;
    }
  }

  // ---- One push ---------------------------------------------------------------------------------

  lemma PlaceFacts(cap: nat, h: nat, t: nat, n: nat)
    requires cap > 0 && h <= t <= h + cap && RecordSize(n) <= cap
    ensures var pad := PadFor(cap, t, n);
      && (Place(cap, h, t, n).Placed? <==> t - h + pad + RecordSize(n) <= cap)
      && Pos(t + pad, cap) == RecordAt(cap, t, pad)
      && RecordAt(cap, t, pad) + RecordSize(n) <= cap
      && (pad > 0 ==> Pos(t, cap) + pad == cap)
  {
    if PadFor(cap, t, n) > 0 {
      PosWrap(t, PadFor(cap, t, n), cap);
    }
  }

  /** Writing one more frame behind the tail appends what it decodes to. */
  lemma FrameAppends(cap: nat, mem: seq<byte>, m: seq<byte>, h: nat, t: nat, n: nat, ns: seq<Message>)
    requires 0 < cap == |mem| == |m| && h <= t && Decode(cap, mem, h, t).Parsed?
    requires 0 < n && t + n <= h + cap && Pos(t, cap) + n <= cap
    requires SameBut(mem, m, Pos(t, cap), n) && Decode(cap, m, t, t + n) == Parsed(ns)
    ensures Decode(cap, m, h, t + n) == Parsed(Decode(cap, mem, h, t).ms + ns)
  {
    hide *;
    DecodeKept(cap, mem, m, h, t, t, n);
    DecodeAppend(cap, m, h, t, t + n);
  }

  lemma GapDecodes(cap: nat, mem: seq<byte>, t: nat)
    requires 0 < cap == |mem|
    ensures var n := Remaining(cap, t);
      Decode(cap, PadMem(cap, mem, t, n), t, t + n) == Parsed([]) && SameBut(mem, PadMem(cap, mem, t, n), Pos(t, cap), n)
  {
    var n, at := Remaining(cap, t), Pos(t, cap);
    if n >= HEADER {
      WrapReadsBack(mem, at);
    }
    DecodeSkips(cap, PadMem(cap, mem, t, n), t, t + n);
  }

  /** Marking padding, or leaving a gap too short for a header, adds nothing to the queue. */
  lemma PadAppends(cap: nat, mem: seq<byte>, h: nat, t: nat)
    requires 0 < cap == |mem| && h <= t && Decode(cap, mem, h, t).Parsed?
    requires t + Remaining(cap, t) <= h + cap
    ensures Decode(cap, PadMem(cap, mem, t, Remaining(cap, t)), h, t + Remaining(cap, t)) == Decode(cap, mem, h, t)
  {
    hide Decode, PadMem, SameBut;
    var n := Remaining(cap, t);
    GapDecodes(cap, mem, t);
    FrameAppends(cap, mem, PadMem(cap, mem, t, n), h, t, n, []);
    assert Decode(cap, mem, h, t).ms + [] == Decode(cap, mem, h, t).ms;
  }

  lemma RecordDecodes(cap: nat, mem: seq<byte>, t: nat, req: Request, sequence: nat)
    requires 0 < cap == |mem| && ValidRequest(req) && Pos(t, cap) + RecordSize(|req.payload|) <= cap
    ensures var n, at, msg := RecordSize(|req.payload|), Pos(t, cap), Message(req.typ, req.payload, sequence % TWO64);
      var m := RecordMem(mem, at, req, sequence);
      Decode(cap, m, t, t + n) == Parsed([msg]) && SameBut(mem, m, at, n)
  {
    var n, at, msg := RecordSize(|req.payload|), Pos(t, cap), Message(req.typ, req.payload, sequence % TWO64);
    var m := RecordMem(mem, at, req, sequence);
    assert SameBut(mem, m, at, n);
    RecordReadsBack(cap, mem, t, req, sequence);
    hide RecordMem, ReadsAs, See;
    DecodeTakes(cap, m, t, t + n, msg);
    assert Decode(cap, m, t + n, t + n) == Parsed([]);
  }

  lemma RecordAppends(cap: nat, mem: seq<byte>, h: nat, t: nat, req: Request, sequence: nat)
    requires 0 < cap == |mem| && h <= t && Decode(cap, mem, h, t).Parsed? && ValidRequest(req)
    requires Pos(t, cap) + RecordSize(|req.payload|) <= cap && t + RecordSize(|req.payload|) <= h + cap
    ensures Decode(cap, RecordMem(mem, Pos(t, cap), req, sequence), h, t + RecordSize(|req.payload|))
         == Parsed(Decode(cap, mem, h, t).ms + [Message(req.typ, req.payload, sequence % TWO64)])
  {
    hide Decode, RecordMem, SameBut;
    RecordDecodes(cap, mem, t, req, sequence);
    FrameAppends(cap, mem, RecordMem(mem, Pos(t, cap), req, sequence), h, t, RecordSize(|req.payload|),
                 [Message(req.typ, req.payload, sequence % TWO64)]);
  }

  /** A push that fits appends exactly its message to the decoded queue. */
  lemma PushAppends(cap: nat, mem: seq<byte>, h: nat, t: nat, req: Request, sequence: nat)
    requires 0 < cap == |mem| && h <= t <= h + cap && Decode(cap, mem, h, t).Parsed?
    requires ValidRequest(req) && Fits(cap, h, t, |req.payload|)
    ensures PushTail(cap, t, |req.payload|) <= h + cap
    ensures Decode(cap, PushMem(cap, mem, t, req, sequence), h, PushTail(cap, t, |req.payload|))
         == Parsed(Decode(cap, mem, h, t).ms + [Message(req.typ, req.payload, sequence % TWO64)])
  {
    hide Decode, Place, Pos, RecordSize, RecordMem;
    var pad := PadFor(cap, t, |req.payload|);
    PlaceFacts(cap, h, t, |req.payload|);
    if pad > 0 {
      PadAppends(cap, mem, h, t);
    }
    RecordAppends(cap, PadMem(cap, mem, t, pad), h, t + pad, req, sequence);
  }
}
