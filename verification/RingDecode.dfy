/** Reading the published region back from its bytes alone. */
module RingDecode {
  import opened Arithmetic
  import opened Bytes
  import opened RingLayout
  import opened FrameLog
  import opened FrameLogFacts

  datatype Decoded = Malformed | Parsed(ms: seq<Message>)

  function Cons(m: Message, rest: Decoded): Decoded {
    if rest.Malformed? then Malformed else Parsed([m] + rest.ms)
  }

  /** What the bytes at an offset start with: something to step over up to the boundary, a record,
      or a record that would cross the boundary. */
  datatype Seen = Skip | Take(m: Message) | Bad

  function See(cap: nat, mem: seq<byte>, h: nat): (s: Seen)
    requires 0 < cap == |mem|
    ensures s.Take? ==> Pos(h, cap) + RecordSize(|s.m.payload|) <= cap
  {
    var at := Pos(h, cap);
    if cap - at < HEADER || IsWrap(FlagsField(mem, at)) then Skip
    else
      var size := SizeField(mem, at);
      if RecordSize(size) > cap - at then Bad
      else Take(Message(TypeField(mem, at), mem[at + HEADER..at + HEADER + size], SequenceField(mem, at)))
  }

  /** The messages found between head `h` and tail `t` by following the frames, or `Malformed` if
      the bytes there are not a sequence of frames that stay inside the boundary and end at `t`. */
  function Decode(cap: nat, mem: seq<byte>, h: nat, t: nat): Decoded
    requires 0 < cap == |mem|
    decreases if h <= t then t - h else 0
  {
    if h == t then Parsed([])
    else if h > t then Malformed
    else match See(cap, mem, h)
      case Skip => Decode(cap, mem, h + (cap - Pos(h, cap)), t)
      case Take(m) => Cons(m, Decode(cap, mem, h + RecordSize(|m.payload|), t))
      case Bad => Malformed
  }

  lemma DecodeSkips(cap: nat, mem: seq<byte>, h: nat, t: nat)
    requires 0 < cap == |mem| && h < t
    requires cap - Pos(h, cap) < HEADER || IsWrap(FlagsField(mem, Pos(h, cap)))
    ensures Decode(cap, mem, h, t) == Decode(cap, mem, h + (cap - Pos(h, cap)), t)
  {}

  /** Message `m` is what the bytes at `h` read as. */
  predicate ReadsAs(cap: nat, mem: seq<byte>, h: nat, m: Message)
    requires 0 < cap == |mem|
  {
    var at := Pos(h, cap);
    && at + RecordSize(|m.payload|) <= cap && !IsWrap(FlagsField(mem, at))
    && SizeField(mem, at) == |m.payload| && TypeField(mem, at) == m.typ && SequenceField(mem, at) == m.sequence
    && mem[at + HEADER..at + HEADER + |m.payload|] == m.payload
  }

  lemma DecodeTakes(cap: nat, mem: seq<byte>, h: nat, t: nat, m: Message)
    requires 0 < cap == |mem| && h < t && ReadsAs(cap, mem, h, m)
    ensures Decode(cap, mem, h, t) == Cons(m, Decode(cap, mem, h + RecordSize(|m.payload|), t))
  {}

  lemma PublishedFrame(r: Ring, i: nat)
    requires RingInv(r) && r.iHp <= i < r.iTp
    ensures 0 < r.cap == |r.mem| && i < |r.log| && FrameOK(r.cap, r.log[i])
    ensures r.log[i].Rec? ==> Hi(r.log[i]) == r.log[i].lo + RecordSize(|MessageOf(r.log[i]).payload|)
    ensures r.log[i].Pad? ==> Hi(r.log[i]) == r.log[i].lo + (r.cap - Pos(r.log[i].lo, r.cap))
    ensures r.log[i].lo == Off(r.log, i) < r.tp && Hi(r.log[i]) == Off(r.log, i + 1) && r.iTp <= |r.log|
  {
    OffMono(r.cap, r.log, i, r.iTp);
  }

  /** Decoding steps over published padding. */
  lemma DecodePad(r: Ring, i: nat)
    requires RingInv(r) && r.iHp <= i < r.iTp && r.log[i].Pad?
    ensures Decode(r.cap, r.mem, r.log[i].lo, r.tp) == Decode(r.cap, r.mem, Hi(r.log[i]), r.tp)
  {
    hide *;
    PublishedFrame(r, i);
    if r.cap - Pos(r.log[i].lo, r.cap) >= HEADER { ReadFlags(r, i); }
    DecodeSkips(r.cap, r.mem, r.log[i].lo, r.tp);
  }

  /** A published record reads as it was pushed. */
  lemma RecordReads(r: Ring, i: nat)
    requires RingInv(r) && r.iHp <= i < r.iTp && r.log[i].Rec?
    ensures ReadsAs(r.cap, r.mem, r.log[i].lo, MessageOf(r.log[i]))
  {
    PublishedFrame(r, i);
    ReadFlags(r, i);
    ReadRecord(r, i);
  }

  /** Decoding takes a published record as it was pushed. */
  lemma DecodeRecord(r: Ring, i: nat)
    requires RingInv(r) && r.iHp <= i < r.iTp && r.log[i].Rec?
    ensures Decode(r.cap, r.mem, r.log[i].lo, r.tp)
         == Cons(MessageOf(r.log[i]), Decode(r.cap, r.mem, Hi(r.log[i]), r.tp))
  {
    hide *;
    PublishedFrame(r, i);
    RecordReads(r, i);
    DecodeTakes(r.cap, r.mem, r.log[i].lo, r.tp, MessageOf(r.log[i]));
  }

  lemma {:induction false} DecodeFrom(r: Ring, i: nat)
    requires RingInv(r) && r.iHp <= i <= r.iTp
    ensures Decode(r.cap, r.mem, Off(r.log, i), r.tp) == Parsed(Messages(r.log, i, r.iTp))
    decreases r.iTp - i
  {
    hide RingInv, Decode, See, Messages, Off, Pos;
    if i < r.iTp {
      PublishedFrame(r, i);
      DecodeFrom(r, i + 1);
      MessagesHead(r.log, i, r.iTp);
      if r.log[i].Pad? { DecodePad(r, i); } else { DecodeRecord(r, i); }
    } else {
      DecodeEnd(r);
    }
  }

  lemma DecodeEnd(r: Ring)
    requires RingInv(r)
    ensures Decode(r.cap, r.mem, Off(r.log, r.iTp), r.tp) == Parsed(Messages(r.log, r.iTp, r.iTp))
  {}

  /** The published region always parses, into exactly the queued messages. */
  lemma DecodeQueue(r: Ring)
    requires RingInv(r)
    ensures Decode(r.cap, r.mem, r.hp, r.tp) == Parsed(Queue(r))
  {
    DecodeFrom(r, r.iHp);
  }
}
