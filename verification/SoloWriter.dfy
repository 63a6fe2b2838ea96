/** Every call of the shared writer that runs alone from a quiescent ring, as atomic steps, does what the
    sequential writer does. */
module SoloWriter {
  import opened Arithmetic
  import opened Bytes
  import opened RingLayout
  import opened FrameLog
  import opened Fifo
  import opened RingWriter
  import opened PushSpec
  import WriterProgress
  import RB = RingBuffer

  /** A step of producer `p` inside its call. */
  predicate StepOK(p: nat, r: Ring, pc: Producer, r': Ring, pc': Producer, e: Event) {
    r.cap > 0 && pc != Idle && ProducerStep(r, p, pc, r', pc', e)
  }

  predicate Walk(p: nat, rs: seq<Ring>, pcs: seq<Producer>, es: seq<Event>) {
    && |rs| == |pcs| == |es| + 1
    && forall i :: 0 <= i < |es| ==> StepOK(p, rs[i], pcs[i], rs[i + 1], pcs[i + 1], es[i])
  }

  /** A whole call, past the checks of its arguments. */
  predicate Call(p: nat, req: Request, rs: seq<Ring>, pcs: seq<Producer>, es: seq<Event>) {
    Walk(p, rs, pcs, es) && pcs[0] == LoadHead(req) && pcs[|es|] == Idle
  }

  /** The bytes once fields `j` to 3 of a header have been stored. */
  function AfterFields(mem: seq<byte>, at: nat, size: nat, typ: nat, flags: nat, j: nat): (m: seq<byte>)
    requires j <= 4 && at + HEADER <= |mem|
    ensures |m| == |mem|
    decreases 4 - j
  {
    if j == 4 then mem
    else AfterFields(Write(mem, FieldAt(at, j), FieldBytes(size, typ, flags, 0, j)), at, size, typ, flags, j + 1)
  }

  lemma AllFields(mem: seq<byte>, at: nat, size: nat, typ: nat, flags: nat)
    requires at + HEADER <= |mem|
    ensures AfterFields(mem, at, size, typ, flags, 0) == Write(mem, at, HeaderBytes(size, typ, flags, 0))
  {
    RB.HeaderInFields(mem, at, size, typ, flags, 0);
    var m1 := Write(mem, at, LE(size, 4));
    var m2 := Write(m1, at + 4, LE(typ, 2));
    var m3 := Write(m2, at + 6, LE(flags, 2));
    hide LE, HeaderBytes;
    assert AfterFields(m3, at, size, typ, flags, 3) == Write(m3, at + 8, LE(0, 8));
    assert AfterFields(m2, at, size, typ, flags, 2) == AfterFields(m3, at, size, typ, flags, 3);
    assert AfterFields(m1, at, size, typ, flags, 1) == AfterFields(m2, at, size, typ, flags, 2);
  }

  /** What the whole call leaves when the record fits. */
  function PushedRing(r: Ring, p: nat, req: Request): Ring
    requires 0 < r.cap == |r.mem| && RecordSize(|req.payload|) <= r.cap
  {
    var pad, t := PadFor(r.cap, r.tr, |req.payload|), PushTail(r.cap, r.tr, |req.payload|);
    var log := r.log + NewFrames(r.tr, pad, req, OrdAt(r.log, |r.log|), p);
    r.(tr := t, tp := t, sq := r.sq + 1, mem := PushMem(r.cap, r.mem, r.tr, req, r.sq + 1), log := log, iTp := |log|)
  }

  // ---- Where a call is heading ----------------------------------------------------------------------

  /** The producer is alone: its snapshots are current, or its reservation is the only one. */
  predicate Room(r: Ring, pc: Producer) {
    && 0 < r.cap == |r.mem|
    && match pc
       case Idle => true
       case LoadHead(q) => r.hp <= r.tp == r.tr <= r.hp + r.cap && RecordSize(|q.payload|) <= r.cap
       case LoadTail(q, h) => r.hp <= r.tp == r.tr <= r.hp + r.cap && RecordSize(|q.payload|) <= r.cap && h == r.hp
       case Reserve(q, h, t) =>
         r.hp <= r.tp == r.tr <= r.hp + r.cap && RecordSize(|q.payload|) <= r.cap && h == r.hp && t == r.tr
       case InFlight(q, start, _, _, stage) =>
         && r.tp == start && RecordPos(r.cap, pc) + RecordSize(|q.payload|) <= |r.mem|
         && match stage
            case WrapHeader(j) => j < 4 && Pos(start, r.cap) + HEADER <= |r.mem|
            case RecordHeader(j) => j < 4
            case Copy(k) => k <= |q.payload|
            case Turn => true
            case Bumped(n) => n == r.sq
            case Sequenced(n) => n == r.sq
  }

  /** The ring once the record of `pc` is published with the bytes `mem`. */
  function Out(r: Ring, pc: Producer, sq: nat, mem: seq<byte>): Ring
    requires pc.InFlight?
  {
    r.(sq := sq, mem := mem, tp := PublishTo(pc), iTp := RecordIndex(pc) + 1)
  }

  /** The bytes once the record behind them has its header and payload and the number `n`. */
  function Numbered(cap: nat, mem: seq<byte>, pc: Producer, n: nat): seq<byte>
    requires cap > 0 && pc.InFlight? && RecordPos(cap, pc) + HEADER <= |mem|
  {
    Write(mem, RecordPos(cap, pc) + 8, LE(n, 8))
  }

  /** The bytes once the header is complete from field `j` on and the payload is copied. */
  function Filled(cap: nat, mem: seq<byte>, pc: Producer, j: nat): (m: seq<byte>)
    requires cap > 0 && pc.InFlight? && j <= 4 && RecordPos(cap, pc) + RecordSize(|pc.req.payload|) <= |mem|
    ensures |m| == |mem|
  {
    var at := RecordPos(cap, pc);
    Write(AfterFields(mem, at, |pc.req.payload|, pc.req.typ, 0, j), at + HEADER, pc.req.payload)
  }

  /** The ring in which the call that stands at `pc` will end. */
  function Ending(p: nat, r: Ring, pc: Producer): Ring
    requires Room(r, pc)
  {
    match pc
    case Idle => r
    case InFlight(q, start, _, _, stage) =>
      var at, n := RecordPos(r.cap, pc), r.sq + 1;
      (match stage
       case WrapHeader(j) =>
         Out(r, pc, n, Numbered(r.cap, Filled(r.cap, AfterFields(r.mem, Pos(start, r.cap), 0, 0, WRAP_FLAG, j), pc, 0), pc, n))
       case RecordHeader(j) => Out(r, pc, n, Numbered(r.cap, Filled(r.cap, r.mem, pc, j), pc, n))
       case Copy(k) => Out(r, pc, n, Numbered(r.cap, Write(r.mem, at + HEADER + k, q.payload[k..]), pc, n))
       case Turn => Out(r, pc, n, Numbered(r.cap, r.mem, pc, n))
       case Bumped(k) => Out(r, pc, k, Numbered(r.cap, r.mem, pc, k))
       case Sequenced(k) => Out(r, pc, k, r.mem))
    case _ => if Fits(r.cap, r.hp, r.tr, |pc.req.payload|) then PushedRing(r, p, pc.req) else r
  }

  lemma StoreEnds(p: nat, r: Ring, pc: Producer)
    requires Room(r, pc) && Storing(pc)
    ensures StoreAt(r.cap, pc) + |StoreBytes(pc)| <= |r.mem|
    ensures var r' := r.(mem := Write(r.mem, StoreAt(r.cap, pc), StoreBytes(pc)));
      Room(r', AfterStore(pc)) && Ending(p, r', AfterStore(pc)) == Ending(p, r, pc)
  {
    hide Pos, RecordSize, LE, AfterFields;
    match pc.stage
    case WrapHeader(j) => WrapEnds(p, r, pc, j);
    case RecordHeader(j) => HeaderEnds(p, r, pc, j);
    case Copy(k) => CopyEnds(p, r, pc, k);
    case Bumped(n) =>
  }

  lemma WrapEnds(p: nat, r: Ring, pc: Producer, j: nat)
    requires Room(r, pc) && pc.InFlight? && pc.stage == WrapHeader(j)
    ensures var r' := r.(mem := Write(r.mem, StoreAt(r.cap, pc), StoreBytes(pc)));
      Room(r', AfterStore(pc)) && Ending(p, r', AfterStore(pc)) == Ending(p, r, pc)
  {
    hide Pos, RecordSize, LE, AfterFields;
    FieldNext(r.mem, Pos(pc.start, r.cap), 0, 0, WRAP_FLAG, j);
    hide Filled, Numbered;
  }

  lemma HeaderEnds(p: nat, r: Ring, pc: Producer, j: nat)
    requires Room(r, pc) && pc.InFlight? && pc.stage == RecordHeader(j)
    ensures var r' := r.(mem := Write(r.mem, StoreAt(r.cap, pc), StoreBytes(pc)));
      Room(r', AfterStore(pc)) && Ending(p, r', AfterStore(pc)) == Ending(p, r, pc)
  {
    hide Pos, RecordSize, LE, AfterFields;
    FieldNext(r.mem, RecordPos(r.cap, pc), |pc.req.payload|, pc.req.typ, 0, j);
    assert pc.req.payload[0..] == pc.req.payload;
    hide Numbered;
  }

  lemma CopyEnds(p: nat, r: Ring, pc: Producer, k: nat)
    requires Room(r, pc) && pc.InFlight? && pc.stage == Copy(k) && k < |pc.req.payload|
    ensures var r' := r.(mem := Write(r.mem, StoreAt(r.cap, pc), StoreBytes(pc)));
      Room(r', AfterStore(pc)) && Ending(p, r', AfterStore(pc)) == Ending(p, r, pc)
  {
    hide Pos, RecordSize, LE, Write;
    var bs, at := pc.req.payload, RecordPos(r.cap, pc) + HEADER + k;
    var r' := r.(mem := Write(r.mem, StoreAt(r.cap, pc), StoreBytes(pc)));
    WriteConcat(r.mem, at, [bs[k]], bs[k + 1..]);
    assert [bs[k]] + bs[k + 1..] == bs[k..];
    assert RecordPos(r'.cap, AfterStore(pc)) + HEADER + (k + 1) == at + |[bs[k]]|;
  }

  lemma FieldNext(mem: seq<byte>, at: nat, size: nat, typ: nat, flags: nat, j: nat)
    requires j < 4 && at + HEADER <= |mem|
    ensures var m := Write(mem, FieldAt(at, j), FieldBytes(size, typ, flags, 0, j));
      && AfterFields(m, at, size, typ, flags, j + 1) == AfterFields(mem, at, size, typ, flags, j)
      && (j == 3 ==> AfterFields(mem, at, size, typ, flags, j) == m)
  {
    hide LE;
    var m := Write(mem, FieldAt(at, j), FieldBytes(size, typ, flags, 0, j));
    if j == 3 {
      assert AfterFields(m, at, size, typ, flags, 4) == m;
    }
  }

  /** A reservation heads for exactly the bytes of the sequential writer. */
  lemma ReserveEnds(p: nat, r: Ring, pc: Producer, r': Ring, pc': Producer)
    requires Room(r, pc) && pc.Reserve? && ReserveStep(r, p, pc, r', pc')
    ensures Room(r', pc') && Ending(p, r', pc') == Ending(p, r, pc)
    ensures pc'.InFlight? ==> Fits(r.cap, r.hp, r.tr, |pc.req.payload|)
    ensures pc' == Idle ==> !Fits(r.cap, r.hp, r.tr, |pc.req.payload|)
  {
    hide Pos, RecordSize;
    var n := |pc.req.payload|;
    PlaceFacts(r.cap, r.hp, r.tr, n);
    assert Place(r.cap, pc.h, pc.t, n).Placed? ==> Place(r.cap, pc.h, pc.t, n).pad == PadFor(r.cap, r.tr, n);
    assert Place(r.cap, pc.h, pc.t, n).Placed? ==> (Place(r.cap, pc.h, pc.t, n).wrap <==> HEADER <= Remaining(r.cap, r.tr) < RecordSize(n));
    hide Place;
    if pc'.InFlight? {
      FlightStarts(p, r, pc.req, r', pc');
    }
  }

  lemma FlightStarts(p: nat, r: Ring, req: Request, r': Ring, pc': Producer)
    requires Room(r, LoadHead(req))
    requires var n := |req.payload|;
      var pad := PadFor(r.cap, r.tr, n);
      && RecordAt(r.cap, r.tr, pad) + RecordSize(n) <= r.cap
      && r' == r.(tr := r.tr + pad + RecordSize(n), log := r.log + NewFrames(r.tr, pad, req, OrdAt(r.log, |r.log|), p))
      && pc' == InFlight(req, r.tr, pad, |r.log|,
                         if pad > 0 && HEADER <= Remaining(r.cap, r.tr) < RecordSize(n) then WrapHeader(0) else RecordHeader(0))
    ensures Room(r', pc') && Ending(p, r', pc') == PushedRing(r, p, req)
  {
    hide Pos, RecordSize, LE, AfterFields, Filled, Numbered, RecordMem, OrdAt, NewFrames;
    var m, sq := PadMem(r.cap, r.mem, r.tr, pc'.pad), r.sq + 1;
    PadStarts(r.cap, r.mem, r.tr, |req.payload|);
    hide PadMem;
    assert Ending(p, r', pc') == Out(r', pc', sq, Numbered(r.cap, Filled(r.cap, m, pc', 0), pc', sq));
    FilledRecord(r.cap, m, pc', sq);
    FrameCount(r, p, req);
    hide Room, Ending;
  }

  lemma FrameCount(r: Ring, p: nat, req: Request)
    requires r.cap > 0
    ensures var pad := PadFor(r.cap, r.tr, |req.payload|);
      |NewFrames(r.tr, pad, req, OrdAt(r.log, |r.log|), p)| == if pad > 0 then 2 else 1
  {}

  /** The bytes of the padding are its header, if there is room for one. */
  lemma PadStarts(cap: nat, mem: seq<byte>, t: nat, n: nat)
    requires 0 < cap == |mem|
    ensures var pad := PadFor(cap, t, n);
      PadMem(cap, mem, t, pad) == if pad > 0 && HEADER <= Remaining(cap, t) < RecordSize(n)
                                  then AfterFields(mem, Pos(t, cap), 0, 0, WRAP_FLAG, 0) else mem
  {
    if HEADER <= Remaining(cap, t) {
      AllFields(mem, Pos(t, cap), 0, 0, WRAP_FLAG);
      hide AfterFields, HeaderBytes, LE;
    }
  }

  lemma FilledRecord(cap: nat, m: seq<byte>, pc: Producer, n: nat)
    requires cap > 0 && pc.InFlight? && RecordPos(cap, pc) + RecordSize(|pc.req.payload|) <= |m|
    ensures Numbered(cap, Filled(cap, m, pc, 0), pc, n) == RecordMem(m, RecordPos(cap, pc), pc.req, n)
  {
    hide LE;
    var at, req := RecordPos(cap, pc), pc.req;
    AllFields(m, at, |req.payload|, req.typ, 0);
    WriteConcat(m, at, HeaderBytes(|req.payload|, req.typ, 0, 0), req.payload);
    Renumber(m, at, req, n);
  }

  /** No step changes where the call is heading. */
  lemma StepEnds(p: nat, r: Ring, pc: Producer, r': Ring, pc': Producer, e: Event)
    requires Room(r, pc) && StepOK(p, r, pc, r', pc', e)
    ensures Room(r', pc') && Ending(p, r', pc') == Ending(p, r, pc)
  {
    if Storing(pc) {
      StoreEnds(p, r, pc);
    } else if pc.Reserve? {
      ReserveEnds(p, r, pc, r', pc');
    } else {
      hide Pos, RecordSize, LE, PushedRing, Fits, AfterFields;
      PlainEnds(p, r, pc, r', pc', e);
    }
  }

  lemma PlainEnds(p: nat, r: Ring, pc: Producer, r': Ring, pc': Producer, e: Event)
    requires Room(r, pc) && StepOK(p, r, pc, r', pc', e) && !Storing(pc) && !pc.Reserve?
    ensures Room(r', pc') && Ending(p, r', pc') == Ending(p, r, pc)
  {
    hide Pos, RecordSize, LE, PushedRing, Fits, AfterFields;
    if pc.InFlight? && pc.stage.Copy? {
      assert Write(r.mem, RecordPos(r.cap, pc) + HEADER + pc.stage.k, pc.req.payload[pc.stage.k..]) == r.mem;
    }
  }

  // ---- Every call ------------------------------------------------------------------------------------

  /** What the call has done so far; `r0` is the ring it started from. */
  predicate Stage(p: nat, r0: Ring, req: Request, r: Ring, pc: Producer, ms: seq<Message>)
    requires r0.cap > 0
  {
    && Room(r, pc)
    && (pc != Idle ==> ms == [] && pc.req == req)
    && (pc.InFlight? ==> Fits(r0.cap, r0.hp, r0.tr, |req.payload|))
    && (!pc.InFlight? && pc != Idle ==> r == r0)
    && (pc == Idle ==> ms == if Fits(r0.cap, r0.hp, r0.tr, |req.payload|)
                             then [Message(req.typ, req.payload, r.sq % TWO64)] else [])
  }

  lemma StageStep(p: nat, r0: Ring, req: Request, r: Ring, pc: Producer, ms: seq<Message>, r': Ring, pc': Producer, e: Event)
    requires r0.cap > 0 && Stage(p, r0, req, r, pc, ms) && StepOK(p, r, pc, r', pc', e)
    ensures Stage(p, r0, req, r', pc', ms + if e.Push? then [e.pushed] else [])
  {
    StepEnds(p, r, pc, r', pc', e);
    if pc.Reserve? {
      ReserveEnds(p, r, pc, r', pc');
    }
    hide Room, Fits, Pos, RecordSize, Place;
    assert ms == [];
    assert pc.InFlight? && pc.stage.Sequenced? ==> pc.stage.n == r.sq by { RoomNumber(r, pc); }
  }

  lemma RoomNumber(r: Ring, pc: Producer)
    requires Room(r, pc)
    ensures pc.InFlight? && pc.stage.Sequenced? ==> pc.stage.n == r.sq
  {}

  lemma {:induction false} Stages(p: nat, req: Request, rs: seq<Ring>, pcs: seq<Producer>, es: seq<Event>, n: nat)
    requires Walk(p, rs, pcs, es) && pcs[0] == LoadHead(req) && Room(rs[0], pcs[0]) && n < |rs|
    ensures rs[0].cap > 0 && Stage(p, rs[0], req, rs[n], pcs[n], Pushes(es[..n]))
    ensures Room(rs[n], pcs[n]) && Ending(p, rs[n], pcs[n]) == Ending(p, rs[0], pcs[0])
  {
    assert rs[0].cap > 0;
    hide Room, Ending, StepOK, Fits;
    if n > 0 {
      var m := n - 1;
      Stages(p, req, rs, pcs, es, m);
      assert StepOK(p, rs[m], pcs[m], rs[m + 1], pcs[m + 1], es[m]);
      assert es[..n][..m] == es[..m];
      hide Stage;
      StepEnds(p, rs[m], pcs[m], rs[n], pcs[n], es[m]);
      StageStep(p, rs[0], req, rs[m], pcs[m], Pushes(es[..m]), rs[n], pcs[n], es[m]);
    }
  }

  function BankOf(r: Ring): RB.Bank {
    RB.Bank(r.mem, r.tr, r.tp, r.sq)
  }

  /** Every call of the shared writer that runs alone from a quiescent ring, however often its exchange
      fails spuriously: it ends in exactly the bytes, tail and sequence counter of the sequential
      writer, and pushes exactly its message if it fits and nothing otherwise. */
  lemma SoloShared(p: nat, req: Request, rs: seq<Ring>, pcs: seq<Producer>, es: seq<Event>)
    requires Call(p, req, rs, pcs, es)
    requires 0 < rs[0].cap == |rs[0].mem| && rs[0].hp <= rs[0].tp == rs[0].tr <= rs[0].hp + rs[0].cap
    requires RecordSize(|req.payload|) <= rs[0].cap
    ensures var r, t := rs[0], rs[|es|];
      && BankOf(t) == RB.AfterShared(r.cap, r.hp, BankOf(r), req)
      && t == (if Fits(r.cap, r.hp, r.tr, |req.payload|) then PushedRing(r, p, req) else r)
      && Pushes(es) == (if Fits(r.cap, r.hp, r.tr, |req.payload|)
                        then [Message(req.typ, req.payload, (r.sq + 1) % TWO64)] else [])
  {
    hide Walk, Fits, PushMem, PushTail, Pos, RecordSize, PadFor, NewFrames, OrdAt, StepOK, Pushes;
    assert es[..|es|] == es;
    WalkLengths(p, rs, pcs, es);
    Stages(p, req, rs, pcs, es, |es|);
  }

  lemma WalkLengths(p: nat, rs: seq<Ring>, pcs: seq<Producer>, es: seq<Event>)
    requires Walk(p, rs, pcs, es)
    ensures |rs| == |pcs| == |es| + 1
  {
    hide StepOK;
  }

  // ---- A call that runs alone ends ------------------------------------------------------------------------

  function Phase(pc: Producer): nat {
    match pc
    case Idle => 0
    case InFlight(_, _, _, _, _) => 1
    case Reserve(_, _, _) => 2
    case LoadTail(_, _) => 3
    case LoadHead(_) => 4
  }

  function Left(pc: Producer): nat {
    if pc.InFlight? then WriterProgress.Work(pc) else 0
  }

  lemma Moves(p: nat, r: Ring, pc: Producer) returns (r': Ring, pc': Producer, e: Event)
    requires Room(r, pc) && pc != Idle
    ensures StepOK(p, r, pc, r', pc', e)
    ensures Phase(pc') < Phase(pc) || (Phase(pc') == Phase(pc) && Left(pc') < Left(pc))
  {
    r', pc', e := r, Idle, Internal;
    if Storing(pc) {
      StoreEnds(p, r, pc);
      hide Room, Ending, Pos, RecordSize;
      r', pc' := r.(mem := Write(r.mem, StoreAt(r.cap, pc), StoreBytes(pc))), AfterStore(pc);
    } else if pc.Reserve? {
      var place := Place(r.cap, pc.h, pc.t, |pc.req.payload|);
      hide Room, Place;
      if place.Placed? {
        r' := r.(tr := pc.t + place.pad + RecordSize(|pc.req.payload|),
                 log := r.log + NewFrames(pc.t, place.pad, pc.req, OrdAt(r.log, |r.log|), p));
        pc' := InFlight(pc.req, pc.t, place.pad, |r.log|, FirstStage(place));
      }
    } else {
      hide Pos, RecordSize;
      match pc
      case LoadHead(q) => pc' := LoadTail(q, r.hp);
      case LoadTail(q, h) => pc' := Reserve(q, h, r.tr);
      case InFlight(q, start, pad, first, stage) =>
        if stage.Copy? {
          pc' := pc.(stage := Turn);
        } else if stage.Turn? {
          r', pc' := r.(sq := r.sq + 1), pc.(stage := Bumped(r.sq + 1));
        } else {
          r' := r.(tp := PublishTo(pc), iTp := RecordIndex(pc) + 1);
          e := Push(p, Message(q.typ, q.payload, stage.n % TWO64));
        }
    }
  }

  lemma {:induction false} Finishes(p: nat, r: Ring, pc: Producer)
    returns (rs: seq<Ring>, pcs: seq<Producer>, es: seq<Event>)
    requires Room(r, pc)
    ensures Walk(p, rs, pcs, es) && rs[0] == r && pcs[0] == pc && pcs[|es|] == Idle
    decreases Phase(pc), Left(pc)
  {
    if pc == Idle {
      return [r], [pc], [];
    }
    hide Phase, Left, Room, StepOK, Ending;
    var r', pc', e := Moves(p, r, pc);
    StepEnds(p, r, pc, r', pc', e);
    rs, pcs, es := Finishes(p, r', pc');
    WalkCons(p, r, pc, e, rs, pcs, es);
    rs, pcs, es := [r] + rs, [pc] + pcs, [e] + es;
  }

  lemma WalkCons(p: nat, r: Ring, pc: Producer, e: Event, rs: seq<Ring>, pcs: seq<Producer>, es: seq<Event>)
    requires Walk(p, rs, pcs, es) && StepOK(p, r, pc, rs[0], pcs[0], e)
    ensures Walk(p, [r] + rs, [pc] + pcs, [e] + es)
  {
    hide StepOK;
    var rs', pcs', es' := [r] + rs, [pc] + pcs, [e] + es;
    forall i | 0 <= i < |es'| ensures StepOK(p, rs'[i], pcs'[i], rs'[i + 1], pcs'[i + 1], es'[i]) {
      if i > 0 { assert StepOK(p, rs[i - 1], pcs[i - 1], rs[i - 1 + 1], pcs[i - 1 + 1], es[i - 1]); }
    }
  }

  /** Such a call can end, from every quiescent ring. */
  lemma SoloSharedEnds(p: nat, r: Ring, req: Request) returns (rs: seq<Ring>, pcs: seq<Producer>, es: seq<Event>)
    requires 0 < r.cap == |r.mem| && r.hp <= r.tp == r.tr <= r.hp + r.cap && RecordSize(|req.payload|) <= r.cap
    ensures Call(p, req, rs, pcs, es) && rs[0] == r
  {
    rs, pcs, es := Finishes(p, r, LoadHead(req));
  }
}
