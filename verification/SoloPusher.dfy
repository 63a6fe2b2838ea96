/** Every call of the single-producer writer that runs while the consumer rests, as atomic steps, does
    what the sequential single-producer writer does. */
module SoloPusher {
  import opened Arithmetic
  import opened Bytes
  import opened RingLayout
  import opened FrameLog
  import opened Fifo
  import opened SpscRing
  import opened PushSpec
  import SW = SoloWriter
  import RB = RingBuffer

  /** A step of the producer inside its call. */
  predicate StepOK(r: Ring, pc: Pusher, r': Ring, pc': Pusher, e: Event) {
    r.cap > 0 && pc != Idle && PusherStep(r, pc, r', pc', e)
  }

  predicate Walk(rs: seq<Ring>, pcs: seq<Pusher>, es: seq<Event>) {
    && |rs| == |pcs| == |es| + 1
    && forall i :: 0 <= i < |es| ==> StepOK(rs[i], pcs[i], rs[i + 1], pcs[i + 1], es[i])
  }

  /** A whole call, past the checks of its arguments. */
  predicate Call(req: Request, rs: seq<Ring>, pcs: seq<Pusher>, es: seq<Event>) {
    Walk(rs, pcs, es) && pcs[0] == LoadHead(req) && pcs[|es|] == Idle
  }

  // ---- Where a call is heading ----------------------------------------------------------------------

  predicate Span(r: Ring, q: Request) {
    0 < r.cap == |r.mem| && r.hp <= r.tp <= r.hp + r.cap && RecordSize(|q.payload|) <= r.cap
  }

  /** Where the producer may stand while the consumer rests. */
  predicate Room(r: Ring, pc: Pusher) {
    match pc
    case LoadHead(q) => Span(r, q)
    case LoadTail(q, h) => Span(r, q) && h == r.hp
    case Decide(q, h, t) => Span(r, q) && h == r.hp && t == r.tp
    case Filling(q, t, stage) =>
      && Span(r, q) && t == r.tp
      && (if stage.WrapHeader? then
            stage.j < 4 && HEADER <= Remaining(r.cap, t) < r.cap && t + Remaining(r.cap, t) <= r.hp + r.cap
          else
            RecordSize(|q.payload|) <= Remaining(r.cap, t) && t + RecordSize(|q.payload|) <= r.hp + r.cap)
      && (stage.RecordHeader? ==> stage.j < 4)
      && (stage.Copy? ==> stage.k <= |q.payload|)
      && (stage.Bumped? || stage.Sequenced? ==> 0 < stage.n == r.sq)
    case SkipTail(q, nt, half) =>
      && Span(r, q) && nt == r.tp + Remaining(r.cap, r.tp) <= r.hp + r.cap
      && 0 < Pos(r.tp, r.cap) && (half ==> r.tr == nt)
    case PublishTail(q, t, n) => Span(r, q) && t == r.tp && 0 < n == r.sq && r.tr == t + RecordSize(|q.payload|)
    case _ => false
  }

  /** What the call will leave, and whether it will push. */
  datatype Goal = Goal(bank: RB.Bank, pushes: bool)

  /** One more turn of the loop from these bytes and this tail. */
  function Turns(r: Ring, b: RB.Bank, q: Request): Goal
    requires 0 < r.cap == |b.mem| && RecordSize(|q.payload|) <= r.cap
  {
    Goal(RB.AfterSingle(r.cap, r.hp, b, q), Fits(r.cap, r.hp, b.tp, |q.payload|))
  }

  function Out(r: Ring, q: Request, sq: nat, mem: seq<byte>): Goal {
    var t := r.tp + RecordSize(|q.payload|);
    Goal(RB.Bank(mem, t, t, sq), true)
  }

  function Numbered(r: Ring, mem: seq<byte>, n: nat): seq<byte>
    requires 0 < r.cap && Pos(r.tp, r.cap) + HEADER <= |mem|
  {
    Write(mem, Pos(r.tp, r.cap) + 8, LE(n, 8))
  }

  function Filled(r: Ring, q: Request, j: nat): (m: seq<byte>)
    requires 0 < r.cap && j <= 4 && Pos(r.tp, r.cap) + RecordSize(|q.payload|) <= |r.mem|
    ensures |m| == |r.mem|
  {
    var at := Pos(r.tp, r.cap);
    Write(SW.AfterFields(r.mem, at, |q.payload|, q.typ, 0, j), at + HEADER, q.payload)
  }

  function Heading(r: Ring, pc: Pusher): Goal
    requires Room(r, pc)
  {
    match pc
    case Filling(q, t, stage) =>
      var at, n, nt := Pos(t, r.cap), r.sq + 1, t + Remaining(r.cap, t);
      (match stage
       case WrapHeader(j) => Turns(r, RB.Bank(SW.AfterFields(r.mem, at, 0, 0, WRAP_FLAG, j), nt, nt, r.sq), q)
       case RecordHeader(j) => Out(r, q, n, Numbered(r, Filled(r, q, j), n))
       case Copy(k) => Out(r, q, n, Numbered(r, Write(r.mem, at + HEADER + k, q.payload[k..]), n))
       case Bumped(k) => Out(r, q, k, Numbered(r, r.mem, k))
       case Sequenced(k) => Out(r, q, k, r.mem))
    case SkipTail(q, nt, _) => Turns(r, RB.Bank(r.mem, nt, nt, r.sq), q)
    case PublishTail(q, t, n) => Out(r, q, n, r.mem)
    case LoadHead(q) => Turns(r, SW.BankOf(r), q)
    case LoadTail(q, _) => Turns(r, SW.BankOf(r), q)
    case Decide(q, _, _) => Turns(r, SW.BankOf(r), q)
  }

  // ---- Steps ---------------------------------------------------------------------------------------------

  lemma WrapEnds(r: Ring, pc: Pusher, j: nat)
    requires Room(r, pc) && pc.Filling? && pc.stage == WrapHeader(j)
    ensures StoreAt(r.cap, pc) + |StoreBytes(pc)| <= |r.mem|
    ensures var r' := r.(mem := Write(r.mem, StoreAt(r.cap, pc), StoreBytes(pc)));
      Room(r', AfterStore(r.cap, pc)) && Heading(r', AfterStore(r.cap, pc)) == Heading(r, pc)
  {
    hide Pos, RecordSize, LE, SW.AfterFields, RB.AfterSingle, Fits, Out, Numbered, Filled;
    SW.FieldNext(r.mem, Pos(pc.t, r.cap), 0, 0, WRAP_FLAG, j);
  }

  lemma HeaderEnds(r: Ring, pc: Pusher, j: nat)
    requires Room(r, pc) && pc.Filling? && pc.stage == RecordHeader(j)
    ensures StoreAt(r.cap, pc) + |StoreBytes(pc)| <= |r.mem|
    ensures var r' := r.(mem := Write(r.mem, StoreAt(r.cap, pc), StoreBytes(pc)));
      Room(r', AfterStore(r.cap, pc)) && Heading(r', AfterStore(r.cap, pc)) == Heading(r, pc)
  {
    hide Pos, RecordSize, LE, SW.AfterFields;
    SW.FieldNext(r.mem, Pos(pc.t, r.cap), |pc.req.payload|, pc.req.typ, 0, j);
    assert pc.req.payload[0..] == pc.req.payload;
  }

  lemma CopyEnds(r: Ring, pc: Pusher, k: nat)
    requires Room(r, pc) && pc.Filling? && pc.stage == Copy(k) && k < |pc.req.payload|
    ensures StoreAt(r.cap, pc) + |StoreBytes(pc)| <= |r.mem|
    ensures var r' := r.(mem := Write(r.mem, StoreAt(r.cap, pc), StoreBytes(pc)));
      Room(r', AfterStore(r.cap, pc)) && Heading(r', AfterStore(r.cap, pc)) == Heading(r, pc)
  {
    hide Pos, RecordSize, LE, Write;
    var bs, at := pc.req.payload, Pos(pc.t, r.cap) + HEADER + k;
    WriteConcat(r.mem, at, [bs[k]], bs[k + 1..]);
    assert [bs[k]] + bs[k + 1..] == bs[k..];
    assert Pos(pc.t, r.cap) + HEADER + (k + 1) == at + |[bs[k]]|;
  }

  lemma StoreEnds(r: Ring, pc: Pusher)
    requires Room(r, pc) && Writing(pc)
    ensures StoreAt(r.cap, pc) + |StoreBytes(pc)| <= |r.mem|
    ensures var r' := r.(mem := Write(r.mem, StoreAt(r.cap, pc), StoreBytes(pc)));
      Room(r', AfterStore(r.cap, pc)) && Heading(r', AfterStore(r.cap, pc)) == Heading(r, pc)
  {
    hide Pos, RecordSize, LE, SW.AfterFields;
    match pc.stage
    case WrapHeader(j) => WrapEnds(r, pc, j);
    case RecordHeader(j) => HeaderEnds(r, pc, j);
    case Copy(k) => CopyEnds(r, pc, k);
    case Bumped(n) =>
  }

  /** Publishing the gap does not change what the loop will do. */
  lemma GapSame(r: Ring, q: Request)
    requires Span(r, q) && RB.TurnOf(r.cap, r.hp, r.tp, |q.payload|).Gap?
    ensures var c := RB.AfterTurn(r.cap, SW.BankOf(r), RB.Gap, q);
      c.tp <= r.hp + r.cap && Turns(r, c, q) == Turns(r, SW.BankOf(r), q)
  {
    var b := SW.BankOf(r);
    RB.TurnProgress(r.cap, r.hp, b, b, q);
    var c := RB.AfterTurn(r.cap, b, RB.Gap, q);
    hide RB.AfterSingle, Fits, RecordSize, Pos;
    RB.TurnProgress(r.cap, r.hp, b, c, q);
    RB.TurnProgress(r.cap, r.hp, c, c, q);
  }

  lemma FilledRecord(r: Ring, q: Request, n: nat)
    requires r.cap > 0 && Pos(r.tp, r.cap) + RecordSize(|q.payload|) <= |r.mem|
    ensures Numbered(r, Filled(r, q, 0), n) == RecordMem(r.mem, Pos(r.tp, r.cap), q, n)
  {
    hide LE, Pos;
    var at := Pos(r.tp, r.cap);
    SW.AllFields(r.mem, at, |q.payload|, q.typ, 0);
    WriteConcat(r.mem, at, HeaderBytes(|q.payload|, q.typ, 0, 0), q.payload);
    Renumber(r.mem, at, q, n);
  }

  /** The decision of the loop keeps to the goal: to give up means that there is no room. */
  lemma DecideEnds(r: Ring, pc: Pusher)
    requires Room(r, pc) && pc.Decide?
    ensures var pc' := Decision(r.cap, pc);
      if pc' == Idle then Heading(r, pc) == Goal(SW.BankOf(r), false)
      else Room(r, pc') && Heading(r, pc') == Heading(r, pc)
  {
    var q, b := pc.req, SW.BankOf(r);
    var turn := RB.TurnOf(r.cap, r.hp, r.tp, |q.payload|);
    if turn.Gap? {
      GapEnds(r, q);
    } else {
      RB.TurnProgress(r.cap, r.hp, b, b, q);
      hide RB.AfterSingle, Fits, RecordSize, Pos;
      if turn.Room? {
        FilledRecord(r, q, r.sq + 1);
        hide RecordMem, Filled, Numbered;
      }
    }
  }

  lemma GapEnds(r: Ring, q: Request)
    requires Span(r, q) && RB.TurnOf(r.cap, r.hp, r.tp, |q.payload|).Gap?
    ensures var pc' := Decision(r.cap, Decide(q, r.hp, r.tp));
      pc' != Idle && Room(r, pc') && Heading(r, pc') == Turns(r, SW.BankOf(r), q)
  {
    hide RB.AfterSingle, Fits, RecordSize, Pos, SW.AfterFields, PadMem;
    GapSame(r, q);
    GapMem(r.cap, r.mem, r.tp);
  }

  lemma GapMem(cap: nat, mem: seq<byte>, t: nat)
    requires 0 < cap == |mem|
    ensures PadMem(cap, mem, t, Remaining(cap, t))
         == if Remaining(cap, t) < HEADER then mem else SW.AfterFields(mem, Pos(t, cap), 0, 0, WRAP_FLAG, 0)
  {
    if Remaining(cap, t) >= HEADER {
      SW.AllFields(mem, Pos(t, cap), 0, 0, WRAP_FLAG);
    }
  }

  /** No step changes where the call is heading; a push happens at its end, if at all. */
  lemma StepEnds(r: Ring, pc: Pusher, r': Ring, pc': Pusher, e: Event)
    requires Room(r, pc) && StepOK(r, pc, r', pc', e)
    ensures pc' != Idle ==> Room(r', pc') && Heading(r', pc') == Heading(r, pc) && !e.Push? && pc'.req == pc.req
    ensures pc' == Idle ==>
      && SW.BankOf(r') == Heading(r, pc).bank && e.Push? == Heading(r, pc).pushes
      && (e.Push? ==> e.pushed == Message(pc.req.typ, pc.req.payload, r'.sq % TWO64))
  {
    if Writing(pc) {
      StoreEnds(r, pc);
      hide Room, Heading;
    } else if pc.Decide? {
      DecideEnds(r, pc);
      hide Room, Heading;
    } else {
      PlainEnds(r, pc, r', pc', e);
    }
  }

  lemma PlainEnds(r: Ring, pc: Pusher, r': Ring, pc': Pusher, e: Event)
    requires Room(r, pc) && StepOK(r, pc, r', pc', e) && !Writing(pc) && !pc.Decide?
    ensures pc' != Idle ==> Room(r', pc') && Heading(r', pc') == Heading(r, pc) && !e.Push? && pc'.req == pc.req
    ensures pc' == Idle ==>
      && SW.BankOf(r') == Heading(r, pc).bank && e.Push? == Heading(r, pc).pushes
      && (e.Push? ==> e.pushed == Message(pc.req.typ, pc.req.payload, r'.sq % TWO64))
  {
    hide Pos, RecordSize, LE, RB.AfterSingle, Fits, SW.AfterFields;
    if pc.Filling? && pc.stage.Copy? {
      assert Write(r.mem, Pos(r.tp, r.cap) + HEADER + pc.stage.k, pc.req.payload[pc.stage.k..]) == r.mem;
    }
  }

  // ---- Every call ------------------------------------------------------------------------------------

  predicate Stage(g: Goal, q: Request, r: Ring, pc: Pusher, ms: seq<Message>) {
    if pc != Idle then Room(r, pc) && Heading(r, pc) == g && ms == [] && pc.req == q
    else SW.BankOf(r) == g.bank && ms == if g.pushes then [Message(q.typ, q.payload, r.sq % TWO64)] else []
  }

  lemma StageStep(g: Goal, q: Request, r: Ring, pc: Pusher, ms: seq<Message>, r': Ring, pc': Pusher, e: Event)
    requires Stage(g, q, r, pc, ms) && StepOK(r, pc, r', pc', e)
    ensures Stage(g, q, r', pc', ms + if e.Push? then [e.pushed] else [])
  {
    StepEnds(r, pc, r', pc', e);
    hide Room, Heading, PusherStep;
  }

  lemma {:induction false} Stages(req: Request, rs: seq<Ring>, pcs: seq<Pusher>, es: seq<Event>, n: nat)
    requires Walk(rs, pcs, es) && pcs[0] == LoadHead(req) && Room(rs[0], pcs[0]) && n < |rs|
    ensures Stage(Heading(rs[0], pcs[0]), req, rs[n], pcs[n], Pushes(es[..n]))
  {
    hide Room, Heading, StepOK;
    if n > 0 {
      var m := n - 1;
      Stages(req, rs, pcs, es, m);
      assert StepOK(rs[m], pcs[m], rs[m + 1], pcs[m + 1], es[m]);
      assert es[..n][..m] == es[..m];
      hide Stage;
      StageStep(Heading(rs[0], pcs[0]), req, rs[m], pcs[m], Pushes(es[..m]), rs[n], pcs[n], es[m]);
    }
  }

  /** Every call of the single-producer writer that runs while the consumer rests ends in exactly the
      bytes, tail and sequence counter of the sequential one, and pushes exactly its message if it fits
      and nothing otherwise. */
  lemma SoloSingle(req: Request, rs: seq<Ring>, pcs: seq<Pusher>, es: seq<Event>)
    requires Call(req, rs, pcs, es)
    requires 0 < rs[0].cap == |rs[0].mem| && rs[0].hp <= rs[0].tp <= rs[0].hp + rs[0].cap
    requires RecordSize(|req.payload|) <= rs[0].cap
    ensures var r, t := rs[0], rs[|es|];
      && SW.BankOf(t) == RB.AfterSingle(r.cap, r.hp, SW.BankOf(r), req)
      && Pushes(es) == (if Fits(r.cap, r.hp, r.tp, |req.payload|)
                        then [Message(req.typ, req.payload, (r.sq + 1) % TWO64)] else [])
  {
    hide Walk, Fits, PushMem, Pos, RecordSize, PadFor, Room, Heading, Turns;
    assert es[..|es|] == es;
    WalkLengths(rs, pcs, es);
    Starts(rs[0], req);
    Stages(req, rs, pcs, es, |es|);
  }

  lemma Starts(r: Ring, req: Request)
    requires Span(r, req)
    ensures Room(r, LoadHead(req)) && Heading(r, LoadHead(req)) == Turns(r, SW.BankOf(r), req)
    ensures Turns(r, SW.BankOf(r), req).bank == RB.AfterSingle(r.cap, r.hp, SW.BankOf(r), req)
    ensures Turns(r, SW.BankOf(r), req).pushes == Fits(r.cap, r.hp, r.tp, |req.payload|)
    ensures Fits(r.cap, r.hp, r.tp, |req.payload|) ==> RB.AfterSingle(r.cap, r.hp, SW.BankOf(r), req).sq == r.sq + 1
  {
    hide Fits, PushMem, Pos, RecordSize, PadFor;
  }

  lemma WalkLengths(rs: seq<Ring>, pcs: seq<Pusher>, es: seq<Event>)
    requires Walk(rs, pcs, es)
    ensures |rs| == |pcs| == |es| + 1
  {
    hide StepOK;
  }

  // ---- A call that runs alone ends ------------------------------------------------------------------------

  /** Steps to the end of this turn of the loop. */
  function Left(pc: Pusher): nat {
    match pc
    case LoadHead(q) => 13 + |q.payload|
    case LoadTail(q, _) => 12 + |q.payload|
    case Decide(q, _, _) => 11 + |q.payload|
    case Filling(q, _, stage) =>
      (match stage
       case WrapHeader(j) => if j < 4 then 6 - j else 0
       case RecordHeader(j) => if j < 4 then 8 - j + |q.payload| else 0
       case Copy(k) => if k <= |q.payload| then 4 + |q.payload| - k else 0
       case Bumped(_) => 3
       case Sequenced(_) => 2)
    case SkipTail(_, _, half) => if half then 1 else 2
    case PublishTail(_, _, _) => 1
    case _ => 0
  }

  predicate Closer(r: Ring, pc: Pusher, r': Ring, pc': Pusher) {
    || pc' == Idle
    || (r'.cap == r.cap && r'.tp == r.tp && Left(pc') < Left(pc))
    || (pc.SkipTail? && r'.cap == r.cap > 0 && r'.tp == pc.nt && pc' == LoadHead(pc.req))
  }

  lemma Moves(r: Ring, pc: Pusher) returns (r': Ring, pc': Pusher, e: Event)
    requires Room(r, pc)
    ensures StepOK(r, pc, r', pc', e) && Closer(r, pc, r', pc')
  {
    if Writing(pc) {
      StoreEnds(r, pc);
      hide Room, Heading, Pos, RecordSize;
      r', pc', e := r.(mem := Write(r.mem, StoreAt(r.cap, pc), StoreBytes(pc))), AfterStore(r.cap, pc), Internal;
    } else {
      r', pc', e := PlainMoves(r, pc);
    }
  }

  lemma PlainMoves(r: Ring, pc: Pusher) returns (r': Ring, pc': Pusher, e: Event)
    requires Room(r, pc) && !Writing(pc)
    ensures StepOK(r, pc, r', pc', e) && Closer(r, pc, r', pc')
  {
    hide Pos, RecordSize;
    r', pc', e := r, Idle, Internal;
    match pc
    case LoadHead(q) => pc' := LoadTail(q, r.hp);
    case LoadTail(q, h) => pc' := Decide(q, h, r.tp);
    case Decide(q, h, t) => pc' := Decision(r.cap, pc);
    case Filling(q, t, stage) =>
      if stage.Copy? {
        r', pc' := r.(sq := r.sq + 1), pc.(stage := Bumped(r.sq + 1));
      } else {
        r', pc' := r.(tr := t + RecordSize(|q.payload|)), PublishTail(q, t, stage.n);
      }
    case SkipTail(q, nt, half) =>
      if !half {
        r', pc' := r.(tr := nt), SkipTail(q, nt, true);
      } else {
        r' := r.(tp := nt, log := r.log + [Pad(r.tp, nt - r.tp, OrdAt(r.log, |r.log|), 0)], iTp := r.iTp + 1);
        pc' := LoadHead(q);
      }
    case PublishTail(q, t, n) =>
      r' := r.(tp := t + RecordSize(|q.payload|), log := r.log + [Rec(t, q.typ, q.payload, n - 1, 0)], iTp := r.iTp + 1);
      e := Push(0, Message(q.typ, q.payload, n % TWO64));
  }

  /** A published gap ends at the boundary. */
  lemma GapCloses(r: Ring, pc: Pusher)
    requires Room(r, pc) && pc.SkipTail?
    ensures Pos(pc.nt, r.cap) < Pos(r.tp, r.cap)
  {
    PosWrap(r.tp, Remaining(r.cap, r.tp), r.cap);
  }

  function PosOf(r: Ring): nat {
    if r.cap > 0 then Pos(r.tp, r.cap) else 0
  }

  lemma {:induction false} Finishes(r: Ring, pc: Pusher) returns (rs: seq<Ring>, pcs: seq<Pusher>, es: seq<Event>)
    requires Room(r, pc)
    ensures Walk(rs, pcs, es) && rs[0] == r && pcs[0] == pc && pcs[|es|] == Idle
    decreases PosOf(r), Left(pc)
  {
    var r', pc', e := Moves(r, pc);
    StepEnds(r, pc, r', pc', e);
    assert r.cap > 0 by { assert StepOK(r, pc, r', pc', e); }
    if pc' == Idle {
      return [r, r'], [pc, pc'], [e];
    }
    if pc.SkipTail? {
      GapCloses(r, pc);
    }
    hide Room, StepOK, Heading, Left, Pos;
    rs, pcs, es := Finishes(r', pc');
    WalkCons(r, pc, e, rs, pcs, es);
    rs, pcs, es := [r] + rs, [pc] + pcs, [e] + es;
  }

  lemma WalkCons(r: Ring, pc: Pusher, e: Event, rs: seq<Ring>, pcs: seq<Pusher>, es: seq<Event>)
    requires Walk(rs, pcs, es) && StepOK(r, pc, rs[0], pcs[0], e)
    ensures Walk([r] + rs, [pc] + pcs, [e] + es)
  {
    hide StepOK;
    var rs', pcs', es' := [r] + rs, [pc] + pcs, [e] + es;
    forall i | 0 <= i < |es'| ensures StepOK(rs'[i], pcs'[i], rs'[i + 1], pcs'[i + 1], es'[i]) {
      if i > 0 { assert StepOK(rs[i - 1], pcs[i - 1], rs[i - 1 + 1], pcs[i - 1 + 1], es[i - 1]); }
    }
  }

  /** Such a call ends, from every ring. */
  lemma SoloSingleEnds(r: Ring, req: Request) returns (rs: seq<Ring>, pcs: seq<Pusher>, es: seq<Event>)
    requires 0 < r.cap == |r.mem| && r.hp <= r.tp <= r.hp + r.cap && RecordSize(|req.payload|) <= r.cap
    ensures Call(req, rs, pcs, es) && rs[0] == r
  {
    rs, pcs, es := Finishes(r, LoadHead(req));
  }
}
