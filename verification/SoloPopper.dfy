/** A call of the single-consumer `try_pop` that runs alone, as atomic steps: it pops the first message
    if there is one, whatever padding lies in front of it, and answers false only if there is none. */
module SoloPopper {
  import opened Arithmetic
  import opened RingLayout
  import opened FrameLog
  import opened FrameLogFacts
  import opened Fifo
  import opened SingleConsumer
  import opened SingleConsumerProofs

  predicate StepOK(order: StoreOrder, r: Ring, pc: Popper, r': Ring, pc': Popper, e: Event) {
    0 < r.cap == |r.mem| && r.iTp <= |r.log| && !pc.Resting? && PopperStep(order, r, pc, r', pc', e)
  }

  /** Steps of the consumer alone, inside one call. */
  predicate Walk(order: StoreOrder, rs: seq<Ring>, pcs: seq<Popper>, es: seq<Event>) {
    && |rs| == |pcs| == |es| + 1
    && forall i :: 0 <= i < |es| ==> StepOK(order, rs[i], pcs[i], rs[i + 1], pcs[i + 1], es[i])
  }

  /** A whole call. */
  predicate Call(order: StoreOrder, rs: seq<Ring>, pcs: seq<Popper>, es: seq<Event>) {
    Walk(order, rs, pcs, es) && pcs[0] == LoadTail(0) && pcs[|es|] == Resting
  }

  // ---- What a call does -----------------------------------------------------------------------------

  predicate Delivering(order: StoreOrder, pc: Popper) {
    order == PublishFirst && pc.Advance? && pc.half && pc.outcome.Got?
  }

  /** The call has popped `ps` so far, having started with the queue `q`. */
  predicate Stage(order: StoreOrder, q: seq<Message>, r: Ring, pc: Popper, ps: seq<Message>)
    requires r.iTp <= |r.log|
  {
    if ps == [] then
      && Queue(r) == q && !Delivering(order, pc)
      && (pc.LoadHead? && pc.nothing ==> q == [])
      && (order == ReserveFirst && pc.Advance? && pc.half ==> r.hr == pc.nh)
      && (pc == Resting ==> q == [])
    else
      && q != [] && ps == [q[0]] && Queue(r) == q[1..]
      && (Delivering(order, pc) || (pc == Resting && r.hr == r.hp))
  }

  function Popped(ps: seq<Message>, e: Event): seq<Message> {
    if e.Pop? then ps + [e.popped] else ps
  }

  lemma StageStep(order: StoreOrder, q: seq<Message>, r: Ring, pc: Popper, ps: seq<Message>, r': Ring, pc': Popper, e: Event)
    requires RingInv(r) && PopperOK(order, r, pc) && r.iTp <= |r.log| && Stage(order, q, r, pc, ps)
    requires StepOK(order, r, pc, r', pc', e)
    ensures RingInv(r') && PopperOK(order, r', pc') && r'.iTp <= |r'.log|
    ensures Stage(order, q, r', pc', Popped(ps, e))
    ensures r' == r.(hr := r'.hr, hp := r'.hp, iHp := r'.iHp)
  {
    PopperKeeps(order, r, pc, r', pc', e);
    if pc' == Resting && !(pc.Advance? && pc.outcome.Got?) {
      FalseMeansEmpty(order, r, pc, r', pc', e);
    }
    if pc.Advance? {
      assert Delivering(order, pc) ==> pc.nh == r.hp;
      hide RingInv, Messages, PopperOK;
      StageAdvance(order, q, r, pc, ps, r', pc', e);
    } else {
      hide RingInv, Messages, PopperOK;
      StageRead(order, q, r, pc, ps, r', pc', e);
    }
  }

  lemma StageAdvance(order: StoreOrder, q: seq<Message>, r: Ring, pc: Popper, ps: seq<Message>, r': Ring, pc': Popper, e: Event)
    requires r.iTp <= |r.log| && Stage(order, q, r, pc, ps) && pc.Advance? && AdvanceStep(order, r, pc, r', pc', e)
    requires (Delivering(order, pc) ==> pc.nh == r.hp) && r'.iTp <= |r'.log| && FifoStep(Queue(r), e, Queue(r'))
    ensures Stage(order, q, r', pc', Popped(ps, e))
  {
    hide Messages;
  }

  lemma StageRead(order: StoreOrder, q: seq<Message>, r: Ring, pc: Popper, ps: seq<Message>, r': Ring, pc': Popper, e: Event)
    requires r.iTp <= |r.log| && Stage(order, q, r, pc, ps) && !pc.Advance? && StepOK(order, r, pc, r', pc', e)
    requires pc' == Resting ==> pc.LoadHead? && pc.nothing
    ensures Stage(order, q, r', pc', Popped(ps, e))
  {
    hide Messages, Pos, RecordSize, FlagsField, SizeField, TypeField, SequenceField;
  }

  lemma {:induction false} Stages(order: StoreOrder, rs: seq<Ring>, pcs: seq<Popper>, es: seq<Event>, n: nat)
    requires Walk(order, rs, pcs, es) && RingInv(rs[0]) && pcs[0] == LoadTail(0) && n < |rs|
    ensures RingInv(rs[n]) && PopperOK(order, rs[n], pcs[n]) && rs[0].iTp <= |rs[0].log| && rs[n].iTp <= |rs[n].log|
    ensures Stage(order, Queue(rs[0]), rs[n], pcs[n], Pops(es[..n]))
    ensures rs[n] == rs[0].(hr := rs[n].hr, hp := rs[n].hp, iHp := rs[n].iHp)
  {
    if n > 0 {
      var m := n - 1;
      Stages(order, rs, pcs, es, m);
      assert StepOK(order, rs[m], pcs[m], rs[m + 1], pcs[m + 1], es[m]);
      assert es[..n][..m] == es[..m];
      hide RingInv, PopperOK, StepOK, Stage, Messages;
      StageStep(order, Queue(rs[0]), rs[m], pcs[m], Pops(es[..m]), rs[n], pcs[n], es[m]);
    }
  }

  /** Every call that runs alone, for both orders of the head stores: with messages queued it pops
      exactly the first one, with none it pops nothing; nothing but the head changes. */
  lemma SoloPop(order: StoreOrder, rs: seq<Ring>, pcs: seq<Popper>, es: seq<Event>)
    requires Call(order, rs, pcs, es) && RingInv(rs[0])
    ensures var r, t := rs[0], rs[|es|];
      && r.iTp <= |r.log| && t.iTp <= |t.log| && RingInv(t)
      && t == r.(hr := t.hr, hp := t.hp, iHp := t.iHp)
      && (Queue(r) != [] ==> Pops(es) == [Queue(r)[0]] && Queue(t) == Queue(r)[1..] && t.hr == t.hp)
      && (Queue(r) == [] ==> Pops(es) == [] && Queue(t) == [])
  {
    Stages(order, rs, pcs, es, |es|);
    assert es[..|es|] == es;
  }

  // ---- A call that runs alone ends ------------------------------------------------------------------------

  function Rank(order: StoreOrder, pc: Popper): nat {
    match pc
    case Resting => 0
    case LoadTail(_) => 8
    case LoadHead(_, _, _, _) => 7
    case Inspect(_, _, _, _) => 6
    case SawFlags(_, _, _, _, _) => 5
    case SawSize(_, _, _, _) => 4
    case CopyOut(_, _, _) => 3
    case LoadSequence(_, _, _) => 2
    case Advance(_, _, half, _) => if !half then 1 else if order == PublishFirst then 9 else 0
  }

  function LeftToCopy(pc: Popper): nat {
    if pc.CopyOut? && |pc.got| <= pc.size then pc.size - |pc.got| else 0
  }

  /** Closer to the end of the call. */
  predicate Closer(order: StoreOrder, r: Ring, pc: Popper, r': Ring, pc': Popper) {
    || r.iHp < r'.iHp <= r'.iTp == r.iTp
    || (&& r'.iHp == r.iHp && r'.iTp == r.iTp
        && (Rank(order, pc') < Rank(order, pc)
            || (Rank(order, pc') == Rank(order, pc) && LeftToCopy(pc') < LeftToCopy(pc))))
  }

  lemma AdvanceMoves(order: StoreOrder, r: Ring, pc: Popper) returns (r': Ring, pc': Popper, e: Event)
    requires 0 < r.cap == |r.mem| && r.iTp <= |r.log| && pc.Advance? && PopperOK(order, r, pc)
    ensures StepOK(order, r, pc, r', pc', e) && Closer(order, r, pc, r', pc')
  {
    hide Messages;
    var publishes := (order == PublishFirst) != pc.half;
    r' := if publishes then r.(hp := pc.nh, iHp := r.iHp + 1) else r.(hr := pc.nh);
    e := if publishes && pc.outcome.Got? then Pop(0, pc.outcome.m) else Internal;
    pc' := if !pc.half then pc.(half := true) else if pc.outcome.Skipped? then LoadTail(pc.skips) else Resting;
  }

  lemma ScanMoves(order: StoreOrder, r: Ring, pc: Popper) returns (pc': Popper)
    requires 0 < r.cap == |r.mem| && r.iTp <= |r.log|
    requires pc.LoadTail? || pc.LoadHead? || pc.Inspect? || pc.SawFlags? || pc.SawSize?
    requires pc.SawFlags? ==> Pos(pc.h, r.cap) + HEADER <= r.cap
    ensures StepOK(order, r, pc, r, pc', Internal) && Rank(order, pc') < Rank(order, pc)
  {
    hide Messages, Pos;
    match pc
    case LoadTail(skips) => pc' := LoadHead(skips, r.tp, r.iTp, Queue(r) == []);
    case LoadHead(skips, t, j, _) => pc' := if r.hp == t then Resting else Inspect(skips, t, j, r.hp);
    case Inspect(skips, t, j, h) =>
      var at := Pos(h, r.cap);
      pc' := if r.cap - at < HEADER then Advance(skips + 1, h + (r.cap - at), false, Skipped)
             else SawFlags(skips, t, j, h, FlagsField(r.mem, at));
    case SawFlags(skips, t, j, h, flags) =>
      var at := Pos(h, r.cap);
      pc' := if IsWrap(flags) then Advance(skips + 1, h + (r.cap - at), false, Skipped)
             else SawSize(t, j, h, SizeField(r.mem, at));
    case SawSize(t, _, h, size) =>
      pc' := if RecordSize(size) > r.cap - Pos(h, r.cap) || Diff64(t, h) < RecordSize(size) then Resting
             else CopyOut(h, size, []);
  }

  lemma TransferMoves(order: StoreOrder, r: Ring, pc: Popper) returns (pc': Popper)
    requires 0 < r.cap == |r.mem| && r.iTp <= |r.log| && (pc.CopyOut? || pc.LoadSequence?)
    requires Pos(pc.h, r.cap) + HEADER <= |r.mem|
    requires pc.CopyOut? ==> |pc.got| <= pc.size && Pos(pc.h, r.cap) + HEADER + pc.size <= |r.mem|
    ensures StepOK(order, r, pc, r, pc', Internal) && Closer(order, r, pc, r, pc')
  {
    hide Messages, Pos;
    var at := Pos(pc.h, r.cap);
    match pc
    case CopyOut(h, size, got) =>
      pc' := if |got| < size then CopyOut(h, size, got + [r.mem[at + HEADER + |got|]])
             else LoadSequence(h, got, TypeField(r.mem, at));
    case LoadSequence(h, got, typ) =>
      pc' := Advance(0, h + RecordSize(|got|), false, Got(Message(typ, got, SequenceField(r.mem, at))));
  }

  /** The consumer is never stuck, and each step brings it closer to the end of its call. */
  lemma Moves(order: StoreOrder, r: Ring, pc: Popper) returns (r': Ring, pc': Popper, e: Event)
    requires RingInv(r) && PopperOK(order, r, pc) && !pc.Resting?
    ensures StepOK(order, r, pc, r', pc', e) && Closer(order, r, pc, r', pc')
  {
    assert 0 < r.cap == |r.mem| && r.iHp <= r.iTp <= |r.log|;
    r', e := r, Internal;
    if pc.CopyOut? || pc.LoadSequence? {
      HeadFrame(r);
      ReadRecord(r, r.iHp);
      hide RingInv, StepOK, Closer;
      pc' := TransferMoves(order, r, pc);
    } else {
      hide RingInv, StepOK, Messages;
      if pc.Advance? {
        r', pc', e := AdvanceMoves(order, r, pc);
      } else {
        pc' := ScanMoves(order, r, pc);
      }
    }
  }

  lemma {:induction false} Finishes(order: StoreOrder, r: Ring, pc: Popper)
    returns (rs: seq<Ring>, pcs: seq<Popper>, es: seq<Event>)
    requires RingInv(r) && PopperOK(order, r, pc)
    ensures Walk(order, rs, pcs, es) && rs[0] == r && pcs[0] == pc && pcs[|es|] == Resting
    decreases if r.iHp <= r.iTp then r.iTp - r.iHp else 0, Rank(order, pc), LeftToCopy(pc)
  {
    if pc == Resting {
      return [r], [pc], [];
    }
    hide Rank, LeftToCopy;
    var r', pc', e := Moves(order, r, pc);
    PopperKeeps(order, r, pc, r', pc', e);
    hide RingInv, PopperOK, FifoStep, StepOK;
    rs, pcs, es := Finishes(order, r', pc');
    WalkCons(order, r, pc, e, rs, pcs, es);
    rs, pcs, es := [r] + rs, [pc] + pcs, [e] + es;
  }

  lemma WalkCons(order: StoreOrder, r: Ring, pc: Popper, e: Event, rs: seq<Ring>, pcs: seq<Popper>, es: seq<Event>)
    requires Walk(order, rs, pcs, es) && StepOK(order, r, pc, rs[0], pcs[0], e)
    ensures Walk(order, [r] + rs, [pc] + pcs, [e] + es)
  {
    hide StepOK;
    var rs', pcs', es' := [r] + rs, [pc] + pcs, [e] + es;
    forall i | 0 <= i < |es'| ensures StepOK(order, rs'[i], pcs'[i], rs'[i + 1], pcs'[i + 1], es'[i]) {
      if i > 0 { assert StepOK(order, rs[i - 1], pcs[i - 1], rs[i - 1 + 1], pcs[i - 1 + 1], es[i - 1]); }
    }
  }

  /** A call that runs alone ends, from every well-formed ring. */
  lemma SoloPopEnds(order: StoreOrder, r: Ring) returns (rs: seq<Ring>, pcs: seq<Popper>, es: seq<Event>)
    requires RingInv(r)
    ensures Call(order, rs, pcs, es) && rs[0] == r
  {
    rs, pcs, es := Finishes(order, r, LoadTail(0));
  }
}
