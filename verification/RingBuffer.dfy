/** The byte ring as its two writers and its single reader see it when nobody else is active:
    an array updated in place and five counters. */
module RingBuffer {
  import opened Arithmetic
  import opened Bytes
  import opened RingLayout
  import opened RingWriter
  import opened RingDecode
  import opened PushSpec

  /** The data argument of `try_push`: a null pointer with a size, or a buffer. */
  datatype Source = Null(size: nat) | Buffer(bytes: seq<byte>)

  function SourceSize(src: Source): nat {
    if src.Null? then src.size else |src.bytes|
  }

  /** The payload of an admissible source. */
  function PayloadOf(src: Source): seq<byte> {
    if src.Null? then [] else src.bytes
  }

  /** The arguments, by their C++ types. */
  predicate ValidArguments(src: Source, typ: nat) {
    SourceSize(src) < 0x1_0000_0000 && typ < 0x1_0000
  }

  /** Not a null pointer that is said to hold data, and not longer than the whole ring. */
  predicate Admissible(cap: nat, src: Source) {
    !(src.Null? && src.size != 0) && RecordSize(|PayloadOf(src)|) <= cap
  }

  /** The condition under which both writers return true. */
  predicate Accepts(cap: nat, h: nat, t: nat, src: Source)
    requires cap > 0
  {
    Admissible(cap, src) && Fits(cap, h, t, |PayloadOf(src)|)
  }

  /** A reader's buffer after receiving `payload`: it grows but never shrinks. */
  function Overlay(buffer: seq<byte>, payload: seq<byte>): (r: seq<byte>)
    ensures |r| == if |buffer| < |payload| then |payload| else |buffer|
    ensures payload <= r
    ensures forall j :: |payload| <= j < |r| ==> r[j] == buffer[j]
  {
    payload + (if |payload| < |buffer| then buffer[|payload|..] else [])
  }

  /** The part of the ring a push may change. */
  datatype Bank = Bank(mem: seq<byte>, tr: nat, tp: nat, sq: nat)

  class Ring {
    const cap: nat
    const ring: array<byte>
    var headReserve: nat
    var headPublish: nat
    var tailReserve: nat
    var tailPublish: nat
    var sequence: nat

    ghost predicate Valid()
      reads this, ring
    {
      && 0 < cap == ring.Length
      && headPublish <= tailPublish <= headPublish + cap
      && Decode(cap, ring[..], headPublish, tailPublish).Parsed?
    }

    /** The queued messages, read back from the bytes. */
    ghost function Contents(): seq<Message>
      reads this, ring
      requires Valid()
    {
      Decode(cap, ring[..], headPublish, tailPublish).ms
    }

    /** A zeroed mapping. */
    constructor (capacity: nat)
      requires capacity > 0
      ensures Valid() && Contents() == [] && cap == capacity && fresh(ring)
      ensures headReserve == headPublish == tailReserve == tailPublish == sequence == 0
    {
      cap := capacity;
      ring := new byte[capacity](i => 0);
      headReserve, headPublish, tailReserve, tailPublish, sequence := 0, 0, 0, 0, 0;
    }

    /** `memcpy` into the ring. */
    method Copy(at: nat, bs: seq<byte>)
      requires at + |bs| <= ring.Length
      modifies ring
      ensures ring[..] == Write(old(ring[..]), at, bs)
    {
      var i := 0;
      while i < |bs|
        invariant i <= |bs|
        invariant ring[..] == Write(old(ring[..]), at, bs[..i])
      {
        ring[at + i] := bs[i];
        i := i + 1;
      }
      assert bs[..i] == bs;
    }

    /** The four field stores of a record header. */
    method StoreHeader(at: nat, size: nat, typ: nat, flags: nat, number: nat)
      requires at + HEADER <= ring.Length
      modifies ring
      ensures ring[..] == Write(old(ring[..]), at, HeaderBytes(size, typ, flags, number))
    {
      ghost var m := ring[..];
      Copy(at, LE(size, 4));
      Copy(at + 4, LE(typ, 2));
      Copy(at + 6, LE(flags, 2));
      Copy(at + 8, LE(number, 8));
      HeaderInFields(m, at, size, typ, flags, number);
    }

    /** A record whose header carries the number 0 for now. */
    method StoreRecord(at: nat, req: Request)
      requires at + RecordSize(|req.payload|) <= ring.Length
      modifies ring
      ensures ring[..] == RecordMem(old(ring[..]), at, req, 0)
    {
      ghost var m := ring[..];
      StoreHeader(at, |req.payload|, req.typ, 0, 0);
      Copy(at + HEADER, req.payload);
      WriteConcat(m, at, HeaderBytes(|req.payload|, req.typ, 0, 0), req.payload);
    }

    /** Header, payload, then the next number over the zero. */
    method StoreNumbered(at: nat, req: Request)
      requires at + RecordSize(|req.payload|) <= ring.Length
      modifies ring, `sequence
      ensures sequence == old(sequence) + 1
      ensures ring[..] == RecordMem(old(ring[..]), at, req, sequence)
    {
      ghost var m := ring[..];
      StoreRecord(at, req);
      sequence := sequence + 1;
      Copy(at + 8, LE(sequence, 8));
      Renumber(m, at, req, sequence);
    }

    /** What a push may change. */
    ghost function State(): Bank
      reads this, ring
    {
      Bank(ring[..], tailReserve, tailPublish, sequence)
    }

    ghost predicate Sane()
      reads this
    {
      0 < cap == ring.Length && headPublish <= tailPublish <= headPublish + cap
    }

    /** Mark the padding in front of a record if there is room for a header. */
    method MarkPadding(start: nat, pos: nat, padding: nat, wrap: bool)
      requires 0 < cap == ring.Length && pos == Pos(start, cap) && padding == Remaining(cap, start)
      requires padding >= HEADER ==> wrap
      modifies ring
      ensures ring[..] == PadMem(cap, old(ring[..]), start, padding)
    {
      if wrap && padding >= HEADER {
        StoreHeader(pos, 0, 0, WRAP_FLAG, 0);
      }
    }

    /** The shared writer past its argument checks. */
    method PutShared(req: Request) returns (ok: bool)
      requires Sane() && ValidRequest(req) && RecordSize(|req.payload|) <= cap && tailReserve == tailPublish
      modifies ring, `tailReserve, `tailPublish, `sequence
      ensures ok == Fits(cap, headPublish, old(tailPublish), |req.payload|)
      ensures State() == AfterShared(cap, headPublish, old(State()), req)
    {
      var size := AlignUp(HEADER + |req.payload|, 8);
      RecordSizeIsAligned(|req.payload|);
      var start := tailReserve;
      var pos := start % cap;
      PosIsMod(start, cap);
      PlaceFacts(cap, headPublish, start, |req.payload|);
      hide Pos, Place, RecordSize, RecordMem, PadMem, AlignUp;
      UnpaddedMem(cap, ring[..], start);
      var remaining := cap - pos;
      var padding, wrap := 0, false;
      if remaining < HEADER {
        padding := remaining;
      } else if remaining < size {
        padding, wrap := remaining, true;
      }
      if start - headPublish + padding + size > cap {
        return false;
      }
      tailReserve := start + padding + size;
      if padding > 0 {
        MarkPadding(start, pos, padding, wrap);
        pos := 0;
      }
      // Nobody is in flight before this reservation, so the publication turn has come.
      StoreNumbered(pos, req);
      tailPublish := tailReserve;
      ok := true;
    }

    /** The shared writer, run by one producer while no other is in flight. */
    method PushShared(src: Source, typ: nat) returns (ok: bool)
      requires Valid() && ValidArguments(src, typ) && tailReserve == tailPublish
      modifies ring, `tailReserve, `tailPublish, `sequence
      ensures Valid() && tailReserve == tailPublish
      ensures ok == old(Accepts(cap, headPublish, tailPublish, src))
      ensures Contents() == old(Contents()) + if ok then [Message(typ, PayloadOf(src), (old(sequence) + 1) % TWO64)] else []
      ensures State() == if Admissible(cap, src) then AfterShared(cap, headPublish, old(State()), Request(typ, PayloadOf(src)))
                         else old(State())
    {
      hide Decode, AfterShared, Fits, RecordSize, Pos;
      assert old(Contents()) + [] == old(Contents());
      if src.Null? && src.size != 0 {
        return false;
      }
      var req := Request(typ, PayloadOf(src));
      if RecordSize(|req.payload|) > cap {
        return false;
      }
      SharedAppends(cap, headPublish, State(), req);
      ok := PutShared(req);
    }

    /** Mark the rest of the ring as padding if a header fits, and publish it. */
    method PublishGap(pos: nat, remaining: nat)
      requires pos + remaining == cap == ring.Length && 0 < cap && pos == Pos(tailPublish, cap)
      modifies ring, `tailReserve, `tailPublish
      ensures State() == AfterTurn(cap, old(State()), Gap, Request(0, []))
    {
      if remaining >= HEADER {
        StoreHeader(pos, 0, 0, WRAP_FLAG, 0);
      }
      tailReserve := tailPublish + remaining;
      tailPublish := tailPublish + remaining;
    }

    /** Write the record at the tail and publish it. */
    method PublishRecord(pos: nat, size: nat, req: Request)
      requires 0 < cap == ring.Length && pos == Pos(tailPublish, cap)
      requires size == RecordSize(|req.payload|) <= Remaining(cap, tailPublish)
      modifies ring, `tailReserve, `tailPublish, `sequence
      ensures State() == AfterTurn(cap, old(State()), Room, req)
    {
      StoreNumbered(pos, req);
      tailReserve := tailPublish + size;
      tailPublish := tailPublish + size;
    }

    /** One turn of the single-producer push loop. */
    method PutTurn(req: Request) returns (turn: Turn)
      requires Sane() && ValidRequest(req) && RecordSize(|req.payload|) <= cap
      modifies ring, `tailReserve, `tailPublish, `sequence
      ensures turn == TurnOf(cap, headPublish, old(tailPublish), |req.payload|)
      ensures State() == AfterTurn(cap, old(State()), turn, req)
    {
      var size := AlignUp(HEADER + |req.payload|, 8);
      RecordSizeIsAligned(|req.payload|);
      var used := tailPublish - headPublish;
      var pos := tailPublish % cap;
      PosIsMod(tailPublish, cap);
      hide Pos, RecordSize, PadMem, RecordMem, AlignUp;
      ghost var b := State();
      assert AfterTurn(cap, b, Gap, Request(0, [])) == AfterTurn(cap, b, Gap, req) && AfterTurn(cap, b, Refuse, req) == b;
      hide AfterTurn;
      var remaining := cap - pos;
      if remaining < HEADER {
        if used + remaining > cap {
          return Refuse;
        }
        PublishGap(pos, remaining);
        return Gap;
      }
      if remaining < size {
        if used + remaining + size > cap {
          return Refuse;
        }
        PublishGap(pos, remaining);
        return Gap;
      }
      if used + size > cap {
        return Refuse;
      }
      PublishRecord(pos, size, req);
      return Room;
    }

    /** The single-producer push loop: padding is published on its own, then the loop runs again. */
    method PutLoop(req: Request) returns (ok: bool)
      requires Sane() && ValidRequest(req) && RecordSize(|req.payload|) <= cap
      modifies ring, `tailReserve, `tailPublish, `sequence
      ensures ok == Fits(cap, headPublish, old(tailPublish), |req.payload|)
      ensures State() == AfterSingle(cap, headPublish, old(State()), req)
    {
      ghost var b := State();
      var turn := Gap;
      hide Pos, AfterTurn, AfterSingle, TurnOf, RecordSize;
      while turn.Gap?
        invariant headPublish <= tailPublish <= headPublish + cap
        invariant turn.Gap? ==> State() == b || (TurnOf(cap, headPublish, b.tp, |req.payload|).Gap? && State() == AfterTurn(cap, b, Gap, req))
        invariant !turn.Gap? ==> State() == AfterSingle(cap, headPublish, b, req) && turn.Room? == Fits(cap, headPublish, b.tp, |req.payload|)
        decreases if turn.Gap? then 1 + Pos(tailPublish, cap) else 0
      {
        ghost var c := State();
        TurnProgress(cap, headPublish, b, c, req);
        turn := PutTurn(req);
      }
      ok := turn.Room?;
    }

    /** The single-producer writer. A refused push may publish padding but never changes the queue. */
    method PushSingle(src: Source, typ: nat) returns (ok: bool)
      requires Valid() && ValidArguments(src, typ)
      modifies ring, `tailReserve, `tailPublish, `sequence
      ensures Valid()
      ensures ok == old(Accepts(cap, headPublish, tailPublish, src))
      ensures Contents() == old(Contents()) + if ok then [Message(typ, PayloadOf(src), (old(sequence) + 1) % TWO64)] else []
      ensures State() == if Admissible(cap, src) then AfterSingle(cap, headPublish, old(State()), Request(typ, PayloadOf(src)))
                         else old(State())
    {
      hide Decode, AfterSingle, Fits, RecordSize, Pos;
      assert old(Contents()) + [] == old(Contents());
      if src.Null? && src.size != 0 {
        return false;
      }
      var req := Request(typ, PayloadOf(src));
      if RecordSize(|req.payload|) > cap {
        return false;
      }
      SingleAppends(cap, headPublish, State(), req);
      ok := PutLoop(req);
    }

    /** `claim` on an existing ring: the reservation counter is set back to the published tail. */
    method Claim()
      requires Valid()
      modifies `tailReserve
      ensures Valid() && Contents() == old(Contents()) && tailReserve == tailPublish
    {
      tailReserve := tailPublish;
    }

    /** Grow the reader's buffer if need be and copy the payload over its front. */
    method CopyOut(at: nat, size: nat, buffer: seq<byte>) returns (out: seq<byte>)
      requires at + size <= ring.Length
      ensures out == Overlay(buffer, ring[at..at + size])
    {
      out := if |buffer| < size then buffer + seq(size - |buffer|, i => 0) else buffer;
      var i := 0;
      while i < size
        invariant i <= size <= |out| == if |buffer| < size then size else |buffer|
        invariant out[..i] == ring[at..at + i]
        invariant forall j :: size <= j < |out| ==> out[j] == buffer[j]
      {
        out := out[i := ring[at + i]];
        i := i + 1;
      }
    }

    /** One turn of the pop loop: step over padding, take the record at the head, or give up on a
        record that cannot be there. */
    method PopTurn(buffer: seq<byte>, typ0: nat, number0: nat)
      returns (kind: PopKind, out: seq<byte>, typ: nat, number: nat)
      requires Sane() && headPublish < tailPublish
      modifies `headReserve, `headPublish
      ensures kind == KindOf(cap, ring[..], old(headPublish), tailPublish)
      ensures headPublish == HeadAfter(cap, ring[..], old(headPublish), tailPublish)
      ensures !kind.Corrupt? ==> headReserve == headPublish
      ensures kind.Taken? ==>
        var m := See(cap, ring[..], old(headPublish)).m;
        out == Overlay(buffer, m.payload) && typ == m.typ && number == m.sequence
      ensures !kind.Taken? ==> out == buffer && typ == typ0 && number == number0
    {
      out, typ, number := buffer, typ0, number0;
      var pos := headPublish % cap;
      PosIsMod(headPublish, cap);
      hide Pos, Overlay, RecordSize, FlagsField, SizeField, TypeField, SequenceField, IsWrap;
      var remaining := cap - pos;
      if remaining < HEADER || IsWrap(FlagsField(ring[..], pos)) {
        headReserve := headPublish + remaining;
        headPublish := headPublish + remaining;
        return Stepped, out, typ, number;
      }
      var size := SizeField(ring[..], pos);
      if RecordSize(size) > remaining || tailPublish - headPublish < RecordSize(size) {
        return Corrupt, out, typ, number;
      }
      out := CopyOut(pos + HEADER, size, buffer);
      typ := TypeField(ring[..], pos);
      number := SequenceField(ring[..], pos);
      headReserve := headPublish + RecordSize(size);
      headPublish := headPublish + RecordSize(size);
      kind := Taken;
    }

    /** The single consumer: skip padding, then take the first record. */
    method TryPop(buffer: seq<byte>, typ0: nat, number0: nat)
      returns (ok: bool, out: seq<byte>, typ: nat, number: nat)
      requires Valid()
      modifies `headReserve, `headPublish
      ensures Valid()
      ensures ok == (old(Contents()) != [])
      ensures ok ==>
        && Contents() == old(Contents())[1..] && headReserve == headPublish
        && out == Overlay(buffer, old(Contents())[0].payload)
        && typ == old(Contents())[0].typ && number == old(Contents())[0].sequence
      ensures !ok ==> Contents() == [] && out == buffer && typ == typ0 && number == number0 && headPublish == tailPublish
    {
      ghost var ms := Contents();
      out, typ, number := buffer, typ0, number0;
      var kind := Stepped;
      while kind.Stepped? && headPublish != tailPublish
        invariant Valid() && !kind.Corrupt?
        invariant kind.Stepped? ==> Contents() == ms && out == buffer && typ == typ0 && number == number0
        invariant kind.Taken? ==>
          && ms != [] && Contents() == ms[1..] && headReserve == headPublish
          && out == Overlay(buffer, ms[0].payload) && typ == ms[0].typ && number == ms[0].sequence
        decreases kind.Stepped?, tailPublish - headPublish
      {
        PopProgress(cap, ring[..], headPublish, tailPublish);
        hide Overlay, See, KindOf, HeadAfter;
        kind, out, typ, number := PopTurn(buffer, typ0, number0);
      }
      ok := kind.Taken?;
    }

    /** One turn of the multi-consumer pop loop, run by the only active consumer: its exchange of
        `head_reserve` succeeds and its turn to publish has come. */
    method PopTurnMany(buffer: seq<byte>, typ0: nat, number0: nat)
      returns (kind: PopKind, out: seq<byte>, typ: nat, number: nat)
      requires Sane() && headPublish < tailPublish && headReserve == headPublish
      modifies `headReserve, `headPublish
      ensures headReserve == headPublish
      ensures kind == KindMany(cap, ring[..], old(headPublish), tailPublish)
      ensures !kind.Corrupt? ==> headPublish == HeadAfter(cap, ring[..], old(headPublish), tailPublish)
      ensures kind.Corrupt? ==> headPublish == old(headPublish)
      ensures kind.Taken? ==>
        var m := See(cap, ring[..], old(headPublish)).m;
        out == Overlay(buffer, m.payload) && typ == m.typ && number == m.sequence
      ensures !kind.Taken? ==> out == buffer && typ == typ0 && number == number0
    {
      out, typ, number := buffer, typ0, number0;
      var head, available := headReserve, tailPublish - headReserve;
      var pos := head % cap;
      PosIsMod(head, cap);
      hide Pos, Overlay, RecordSize, FlagsField, SizeField, TypeField, SequenceField, IsWrap;
      var remaining := cap - pos;
      if remaining < HEADER {
        if available < remaining {
          return Corrupt, out, typ, number;
        }
        headReserve := head + remaining;
        headPublish := head + remaining;
        return Stepped, out, typ, number;
      }
      if available < HEADER {
        return Corrupt, out, typ, number;
      }
      if IsWrap(FlagsField(ring[..], pos)) {
        if available < remaining {
          return Corrupt, out, typ, number;
        }
        headReserve := head + remaining;
        headPublish := head + remaining;
        return Stepped, out, typ, number;
      }
      var size := SizeField(ring[..], pos);
      if RecordSize(size) > remaining || available < RecordSize(size) {
        return Corrupt, out, typ, number;
      }
      headReserve := head + RecordSize(size);
      out := CopyOut(pos + HEADER, size, buffer);
      typ := TypeField(ring[..], pos);
      number := SequenceField(ring[..], pos);
      headPublish := head + RecordSize(size);
      kind := Taken;
    }

    /** The multi-consumer `try_pop`, run by the only active consumer: the same result as the
        single-consumer one. */
    method TryPopMany(buffer: seq<byte>, typ0: nat, number0: nat)
      returns (ok: bool, out: seq<byte>, typ: nat, number: nat)
      requires Valid() && headReserve == headPublish
      modifies `headReserve, `headPublish
      ensures Valid() && headReserve == headPublish
      ensures ok == (old(Contents()) != [])
      ensures ok ==>
        && Contents() == old(Contents())[1..]
        && out == Overlay(buffer, old(Contents())[0].payload)
        && typ == old(Contents())[0].typ && number == old(Contents())[0].sequence
      ensures !ok ==> Contents() == [] && out == buffer && typ == typ0 && number == number0
    {
      ghost var ms := Contents();
      out, typ, number := buffer, typ0, number0;
      var kind := Stepped;
      while kind.Stepped? && headReserve != tailPublish
        invariant Valid() && headReserve == headPublish && !kind.Corrupt?
        invariant kind.Stepped? ==> Contents() == ms && out == buffer && typ == typ0 && number == number0
        invariant kind.Taken? ==>
          && ms != [] && Contents() == ms[1..]
          && out == Overlay(buffer, ms[0].payload) && typ == ms[0].typ && number == ms[0].sequence
        decreases kind.Stepped?, tailPublish - headPublish
      {
        PopProgress(cap, ring[..], headPublish, tailPublish);
        KindsAgree(cap, ring[..], headPublish, tailPublish);
        hide Overlay, See, KindOf, KindMany, HeadAfter;
        kind, out, typ, number := PopTurnMany(buffer, typ0, number0);
      }
      ok := kind.Taken?;
    }
  }

  datatype PopKind = Stepped | Taken | Corrupt

  function KindOf(cap: nat, mem: seq<byte>, h: nat, t: nat): PopKind
    requires 0 < cap == |mem|
  {
    match See(cap, mem, h)
    case Skip => Stepped
    case Take(m) => if h + RecordSize(|m.payload|) > t then Corrupt else Taken
    case Bad => Corrupt
  }

  function HeadAfter(cap: nat, mem: seq<byte>, h: nat, t: nat): nat
    requires 0 < cap == |mem|
  {
    match See(cap, mem, h)
    case Skip => h + Remaining(cap, h)
    case Take(m) => if h + RecordSize(|m.payload|) > t then h else h + RecordSize(|m.payload|)
    case Bad => h
  }

  /** The multi-consumer loop checks what is available before it looks at the header. */
  function KindMany(cap: nat, mem: seq<byte>, h: nat, t: nat): PopKind
    requires 0 < cap == |mem| && h <= t
  {
    if Remaining(cap, h) >= HEADER && t - h < HEADER then Corrupt
    else if See(cap, mem, h).Skip? && t - h < Remaining(cap, h) then Corrupt
    else KindOf(cap, mem, h, t)
  }

  lemma KindsAgree(cap: nat, mem: seq<byte>, h: nat, t: nat)
    requires 0 < cap == |mem| && h < t && Decode(cap, mem, h, t).Parsed?
    ensures KindMany(cap, mem, h, t) == KindOf(cap, mem, h, t)
  {
    ParsedFrame(cap, mem, h, t);
  }

  /** In a ring whose published region parses, no turn of the pop loop gives up. */
  lemma PopProgress(cap: nat, mem: seq<byte>, h: nat, t: nat)
    requires 0 < cap == |mem| && h < t && Decode(cap, mem, h, t).Parsed?
    ensures !KindOf(cap, mem, h, t).Corrupt? && h < HeadAfter(cap, mem, h, t) <= t
    ensures var ms, rest := Decode(cap, mem, h, t).ms, Decode(cap, mem, HeadAfter(cap, mem, h, t), t);
      && rest.Parsed?
      && (KindOf(cap, mem, h, t).Stepped? ==> rest.ms == ms)
      && (KindOf(cap, mem, h, t).Taken? ==>
            See(cap, mem, h).Take? && ms != [] && ms[0] == See(cap, mem, h).m && rest.ms == ms[1..])
  {}

  lemma UnpaddedMem(cap: nat, mem: seq<byte>, t: nat)
    requires 0 < cap == |mem|
    ensures PadMem(cap, mem, t, 0) == mem
  {}

  /** The tail after a push refused by the single-producer writer: a gap too short for a header is
      published even when the record behind it does not fit. */
  function GapTail(cap: nat, h: nat, t: nat): nat
    requires cap > 0
  {
    if Remaining(cap, t) < HEADER && t + Remaining(cap, t) <= h + cap then t + Remaining(cap, t) else t
  }

  /** The branches of the single-producer push loop: give up, publish the gap up to the boundary
      and go round again, or write the record. */
  datatype Turn = Refuse | Gap | Room

  function TurnOf(cap: nat, h: nat, t: nat, n: nat): Turn
    requires cap > 0
  {
    var remaining := Remaining(cap, t);
    if remaining < HEADER then if t + remaining > h + cap then Refuse else Gap
    else if remaining < RecordSize(n) then if t + remaining + RecordSize(n) > h + cap then Refuse else Gap
    else if t + RecordSize(n) > h + cap then Refuse
    else Room
  }

  function AfterTurn(cap: nat, b: Bank, turn: Turn, req: Request): Bank
    requires 0 < cap == |b.mem| && (turn.Room? ==> RecordSize(|req.payload|) <= Remaining(cap, b.tp))
  {
    match turn
    case Refuse => b
    case Gap =>
      var t := b.tp + Remaining(cap, b.tp);
      Bank(PadMem(cap, b.mem, b.tp, Remaining(cap, b.tp)), t, t, b.sq)
    case Room =>
      var t := b.tp + RecordSize(|req.payload|);
      Bank(RecordMem(b.mem, Pos(b.tp, cap), req, b.sq + 1), t, t, b.sq + 1)
  }

  /** The whole effect of the shared writer when nobody else is in flight. */
  function AfterShared(cap: nat, h: nat, b: Bank, req: Request): Bank
    requires 0 < cap == |b.mem|
  {
    if Fits(cap, h, b.tp, |req.payload|) then
      var t := PushTail(cap, b.tp, |req.payload|);
      Bank(PushMem(cap, b.mem, b.tp, req, b.sq + 1), t, t, b.sq + 1)
    else b
  }

  /** The whole effect of the single-producer push. A gap too short for a header is published even
      when the record behind it does not fit. */
  function AfterSingle(cap: nat, h: nat, b: Bank, req: Request): Bank
    requires 0 < cap == |b.mem| && RecordSize(|req.payload|) <= cap
  {
    if Fits(cap, h, b.tp, |req.payload|) then
      var t := PushTail(cap, b.tp, |req.payload|);
      Bank(PushMem(cap, b.mem, b.tp, req, b.sq + 1), t, t, b.sq + 1)
    else if GapTail(cap, h, b.tp) != b.tp then
      b.(tr := GapTail(cap, h, b.tp), tp := GapTail(cap, h, b.tp))
    else b
  }

  /** The queue after the shared writer. */
  lemma SharedAppends(cap: nat, h: nat, b: Bank, req: Request)
    requires 0 < cap == |b.mem| && h <= b.tp <= h + cap && Decode(cap, b.mem, h, b.tp).Parsed?
    requires ValidRequest(req) && RecordSize(|req.payload|) <= cap && b.tr == b.tp
    ensures var c := AfterShared(cap, h, b, req);
      && |c.mem| == cap && c.tr == c.tp && h <= c.tp <= h + cap
      && Decode(cap, c.mem, h, c.tp)
         == Parsed(Decode(cap, b.mem, h, b.tp).ms
                   + if Fits(cap, h, b.tp, |req.payload|) then [Message(req.typ, req.payload, (b.sq + 1) % TWO64)] else [])
  {
    hide Decode, Fits, PushMem, RecordSize;
    if Fits(cap, h, b.tp, |req.payload|) {
      PushAppends(cap, b.mem, h, b.tp, req, b.sq + 1);
    } else {
      assert Decode(cap, b.mem, h, b.tp).ms + [] == Decode(cap, b.mem, h, b.tp).ms;
    }
  }

  /** The queue after the single-producer writer: the same. */
  lemma SingleAppends(cap: nat, h: nat, b: Bank, req: Request)
    requires 0 < cap == |b.mem| && h <= b.tp <= h + cap && Decode(cap, b.mem, h, b.tp).Parsed?
    requires ValidRequest(req) && RecordSize(|req.payload|) <= cap
    ensures var c := AfterSingle(cap, h, b, req);
      && |c.mem| == cap && h <= c.tp <= h + cap
      && Decode(cap, c.mem, h, c.tp)
         == Parsed(Decode(cap, b.mem, h, b.tp).ms
                   + if Fits(cap, h, b.tp, |req.payload|) then [Message(req.typ, req.payload, (b.sq + 1) % TWO64)] else [])
  {
    hide Decode, Fits, PushMem, RecordSize;
    if Fits(cap, h, b.tp, |req.payload|) {
      PushAppends(cap, b.mem, h, b.tp, req, b.sq + 1);
    } else {
      if GapTail(cap, h, b.tp) != b.tp {
        PadAppends(cap, b.mem, h, b.tp);
      }
      assert Decode(cap, b.mem, h, b.tp).ms + [] == Decode(cap, b.mem, h, b.tp).ms;
    }
  }

  /** From the start, or from behind the published gap, one more turn ends the push or publishes
      the gap - once. */
  lemma TurnProgress(cap: nat, h: nat, b: Bank, c: Bank, req: Request)
    requires 0 < cap == |b.mem| == |c.mem| && RecordSize(|req.payload|) <= cap
    requires h <= b.tp <= h + cap && h <= c.tp <= h + cap
    requires c == b || (TurnOf(cap, h, b.tp, |req.payload|).Gap? && c == AfterTurn(cap, b, Gap, req))
    ensures var turn := TurnOf(cap, h, c.tp, |req.payload|);
      && (turn.Gap? ==> c == b && h <= AfterTurn(cap, b, Gap, req).tp <= h + cap
                        && Pos(AfterTurn(cap, b, Gap, req).tp, cap) < Pos(b.tp, cap))
      && (turn.Room? ==> RecordSize(|req.payload|) <= Remaining(cap, c.tp))
      && (!turn.Gap? ==> AfterTurn(cap, c, turn, req) == AfterSingle(cap, h, b, req)
                         && turn.Room? == Fits(cap, h, b.tp, |req.payload|)
                         && h <= AfterTurn(cap, c, turn, req).tp <= h + cap)
  {
    if c == b {
      FirstTurn(cap, h, b, req);
    } else {
      SecondTurn(cap, h, b, req);
    }
  }

  lemma FirstTurn(cap: nat, h: nat, b: Bank, req: Request)
    requires 0 < cap == |b.mem| && RecordSize(|req.payload|) <= cap && h <= b.tp <= h + cap
    ensures var turn := TurnOf(cap, h, b.tp, |req.payload|);
      && (turn.Gap? ==> h <= AfterTurn(cap, b, Gap, req).tp <= h + cap
                        && Pos(AfterTurn(cap, b, Gap, req).tp, cap) < Pos(b.tp, cap))
      && (turn.Room? ==> RecordSize(|req.payload|) <= Remaining(cap, b.tp))
      && (!turn.Gap? ==> AfterTurn(cap, b, turn, req) == AfterSingle(cap, h, b, req)
                         && turn.Room? == Fits(cap, h, b.tp, |req.payload|)
                         && h <= AfterTurn(cap, b, turn, req).tp <= h + cap)
  {
    hide RecordMem, RecordSize, Place;
    PlaceFacts(cap, h, b.tp, |req.payload|);
    if TurnOf(cap, h, b.tp, |req.payload|).Gap? {
      PosWrap(b.tp, Remaining(cap, b.tp), cap);
    }
  }

  lemma SecondTurn(cap: nat, h: nat, b: Bank, req: Request)
    requires 0 < cap == |b.mem| && RecordSize(|req.payload|) <= cap && h <= b.tp <= h + cap
    requires TurnOf(cap, h, b.tp, |req.payload|).Gap? && AfterTurn(cap, b, Gap, req).tp <= h + cap
    ensures var c := AfterTurn(cap, b, Gap, req);
      var turn := TurnOf(cap, h, c.tp, |req.payload|);
      && !turn.Gap?
      && (turn.Room? ==> RecordSize(|req.payload|) <= Remaining(cap, c.tp))
      && AfterTurn(cap, c, turn, req) == AfterSingle(cap, h, b, req)
      && turn.Room? == Fits(cap, h, b.tp, |req.payload|)
      && h <= AfterTurn(cap, c, turn, req).tp <= h + cap
  {
    hide RecordMem, RecordSize, Place, Pos, PadMem;
    PlaceFacts(cap, h, b.tp, |req.payload|);
    GapFacts(cap, b.mem, h, b.tp, |req.payload|);
  }

  lemma GapFacts(cap: nat, mem: seq<byte>, h: nat, t: nat, n: nat)
    requires 0 < cap == |mem| && RecordSize(n) <= cap && h <= t <= h + cap && TurnOf(cap, h, t, n).Gap?
    ensures PadFor(cap, t, n) == Remaining(cap, t) && Pos(t + Remaining(cap, t), cap) == 0
    ensures Remaining(cap, t + Remaining(cap, t)) == cap
    ensures Remaining(cap, t) < HEADER ==> PadMem(cap, mem, t, Remaining(cap, t)) == mem
  {
    PosWrap(t, Remaining(cap, t), cap);
  }

  lemma HeaderInFields(m: seq<byte>, at: nat, size: nat, typ: nat, flags: nat, number: nat)
    requires at + HEADER <= |m|
    ensures Write(Write(Write(Write(m, at, LE(size, 4)), at + 4, LE(typ, 2)), at + 6, LE(flags, 2)), at + 8, LE(number, 8))
         == Write(m, at, HeaderBytes(size, typ, flags, number))
  {}
}
