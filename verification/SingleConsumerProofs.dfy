/** Every step of the single consumer keeps its invariant and is a step of the queue. */
module SingleConsumerProofs {
  import opened Arithmetic
  import opened Bytes
  import opened RingLayout
  import opened FrameLog
  import opened FrameLogFacts
  import opened Fifo
  import opened SingleConsumer

  /** Padding is never followed by padding. */
  lemma RecordAfterPad(r: Ring, i: nat)
    requires RingInv(r) && 0 < i < |r.log| && r.log[i - 1].Pad?
    ensures r.log[i].Rec?
  {
    var f := r.log[i - 1];
    assert FrameOK(r.cap, f) && FrameOK(r.cap, r.log[i]);
    assert r.log[i].lo == Off(r.log, i);
    PosWrap(f.lo, f.len, r.cap);
  }

  /** A producer that only adds frames and publishes them does not disturb the consumer. */
  lemma GrowthKeepsPopper(order: StoreOrder, r: Ring, pc: Popper, r': Ring)
    requires r.cap > 0 && PopperOK(order, r, pc) && r.iTp <= |r.log|
    requires r'.cap == r.cap && r'.hp == r.hp && r'.iHp == r.iHp
    requires r.log <= r'.log && r.iTp <= r'.iTp <= |r'.log|
    ensures PopperOK(order, r', pc)
  {}

  /** The head snapshot is the frame at the head. */
  lemma HeadFrame(r: Ring)
    requires RingInv(r) && r.iHp < r.iTp
    ensures r.log[r.iHp].lo == r.hp
  {}

  lemma ReadStep(order: StoreOrder, r: Ring, pc: Popper, pc': Popper, e: Event)
    requires RingInv(r) && PopperOK(order, r, pc) && !pc.Advance?
    requires PopperStep(order, r, pc, r, pc', e)
    ensures PopperOK(order, r, pc')
  {
    match pc
    case Resting =>
    case LoadTail(_) =>
    case LoadHead(_, t, j, _) => OffMono(r.cap, r.log, r.iHp, j);
    case Inspect(_, _, _, _) => InspectOK(order, r, pc, pc', e);
    case SawFlags(_, _, _, _, _) => FlagsOK(order, r, pc, pc', e);
    case SawSize(_, _, _, _) => SizeChecksPass(order, r, pc);
    case CopyOut(_, _, _) => TransferOK(order, r, pc, pc', e);
    case LoadSequence(_, _, _) => TransferOK(order, r, pc, pc', e);
  }

  lemma TransferOK(order: StoreOrder, r: Ring, pc: Popper, pc': Popper, e: Event)
    requires RingInv(r) && PopperOK(order, r, pc) && (pc.CopyOut? || pc.LoadSequence?)
    requires PopperStep(order, r, pc, r, pc', e)
    ensures PopperOK(order, r, pc')
  {
    assert 0 < r.cap == |r.mem|;
    CopyOK(r, pc.got);
    HeadFrame(r);
    ReadRecord(r, r.iHp);
    hide RingInv;
    if pc.CopyOut? {
      CopyStep(order, r, pc, pc', e);
    } else {
      SequenceStep(order, r, pc, pc', e);
    }
  }

  lemma CopyStep(order: StoreOrder, r: Ring, pc: Popper, pc': Popper, e: Event)
    requires 0 < r.cap == |r.mem| && PopperOK(order, r, pc) && pc.CopyOut? && PopperStep(order, r, pc, r, pc', e)
    requires var p, payload, got := Pos(r.hp, r.cap), r.log[r.iHp].payload, pc.got;
      && p + HEADER + |payload| <= |r.mem|
      && (|got| < |payload| ==> got + [r.mem[p + HEADER + |got|]] == payload[..|got| + 1])
      && (|got| == |payload| ==> got == payload && TypeField(r.mem, p) == r.log[r.iHp].typ)
    ensures PopperOK(order, r, pc')
  {
    hide Pos, TypeField, Messages;
  }

  lemma SequenceStep(order: StoreOrder, r: Ring, pc: Popper, pc': Popper, e: Event)
    requires 0 < r.cap == |r.mem| && PopperOK(order, r, pc) && pc.LoadSequence? && PopperStep(order, r, pc, r, pc', e)
    requires Pos(r.hp, r.cap) + HEADER <= |r.mem| && r.log[r.iHp].lo == r.hp
    requires SequenceField(r.mem, Pos(r.hp, r.cap)) == (r.log[r.iHp].ord + 1) % TWO64
    ensures PopperOK(order, r, pc')
  {
    hide Pos, SequenceField, Messages;
  }

  lemma InspectOK(order: StoreOrder, r: Ring, pc: Popper, pc': Popper, e: Event)
    requires RingInv(r) && PopperOK(order, r, pc) && pc.Inspect?
    requires PopperStep(order, r, pc, r, pc', e)
    ensures PopperOK(order, r, pc')
  {
    HeadFrame(r);
    if r.cap - Pos(r.hp, r.cap) < HEADER {
      ShortTail(r, r.iHp);
      if pc.skips == 1 { RecordAfterPad(r, r.iHp); }
    } else {
      ReadFlags(r, r.iHp);
    }
  }

  lemma FlagsOK(order: StoreOrder, r: Ring, pc: Popper, pc': Popper, e: Event)
    requires RingInv(r) && PopperOK(order, r, pc) && pc.SawFlags?
    requires PopperStep(order, r, pc, r, pc', e)
    ensures PopperOK(order, r, pc')
  {
    HeadFrame(r);
    if r.log[r.iHp].Pad? {
      ReadFlags(r, r.iHp);
      if pc.skips == 1 { RecordAfterPad(r, r.iHp); }
    } else {
      ReadRecord(r, r.iHp);
    }
  }

  /** The two size checks of `try_pop` never fail: their early returns are unreachable. */
  lemma SizeChecksPass(order: StoreOrder, r: Ring, pc: Popper)
    requires RingInv(r) && PopperOK(order, r, pc) && pc.SawSize?
    ensures RecordSize(pc.size) <= r.cap - Pos(pc.h, r.cap)
    ensures pc.h <= pc.t && RecordSize(pc.size) <= Diff64(pc.t, pc.h)
  {
    SnapshotCovers(r, pc.j);
    hide RingInv, Pos, Off, RecordSize;
  }

  /** A later boundary lies at or behind the end of the frame at the head. */
  lemma SnapshotCovers(r: Ring, j: nat)
    requires RingInv(r) && r.iHp < j <= r.iTp
    ensures r.cap > 0 && r.log[r.iHp].lo == r.hp && FrameOK(r.cap, r.log[r.iHp]) && Hi(r.log[r.iHp]) <= Off(r.log, j)
  {
    HeadFrame(r);
    OffMono(r.cap, r.log, r.iHp + 1, j);
  }

  lemma CopyOK(r: Ring, got: seq<byte>)
    requires RingInv(r) && r.iHp < r.iTp && r.log[r.iHp].Rec?
    requires |got| <= |r.log[r.iHp].payload| && got == r.log[r.iHp].payload[..|got|]
    ensures var p, payload := Pos(r.hp, r.cap), r.log[r.iHp].payload;
            && p + HEADER + |payload| <= |r.mem|
            && (|got| < |payload| ==> got + [r.mem[p + HEADER + |got|]] == payload[..|got| + 1])
            && (|got| == |payload| ==> got == payload && TypeField(r.mem, p) == r.log[r.iHp].typ)
  {
    HeadFrame(r);
    ReadRecord(r, r.iHp);
    var p, payload := Pos(r.hp, r.cap), r.log[r.iHp].payload;
    if |got| < |payload| {
      assert r.mem[p + HEADER..p + HEADER + |payload|][|got|] == payload[|got|];
    }
  }

  /** Moving the head. */
  lemma AdvanceOK(order: StoreOrder, r: Ring, pc: Popper, r': Ring, pc': Popper, e: Event)
    requires RingInv(r) && PopperOK(order, r, pc) && pc.Advance?
    requires AdvanceStep(order, r, pc, r', pc', e)
    ensures PopperOK(order, r', pc')
    ensures RingInv(r') && FifoStep(Queue(r), e, Queue(r'))
    ensures r' == r.(hr := r'.hr) || (r.iHp < r.iTp && r' == r.(hp := Hi(r.log[r.iHp]), iHp := r.iHp + 1))
  {
    hide RingInv, FifoStep, PopperOK, AdvanceStep, Messages;
    AdvanceRing(order, r, pc, r', pc', e);
    AdvancePopper(order, r, pc, r', pc', e);
  }

  lemma AdvancePopper(order: StoreOrder, r: Ring, pc: Popper, r': Ring, pc': Popper, e: Event)
    requires r.cap > 0 && PopperOK(order, r, pc) && pc.Advance?
    requires AdvanceStep(order, r, pc, r', pc', e)
    ensures PopperOK(order, r', pc')
  {}

  lemma AdvanceRing(order: StoreOrder, r: Ring, pc: Popper, r': Ring, pc': Popper, e: Event)
    requires RingInv(r) && PopperOK(order, r, pc) && pc.Advance?
    requires AdvanceStep(order, r, pc, r', pc', e)
    ensures RingInv(r') && FifoStep(Queue(r), e, Queue(r'))
    ensures r' == r.(hr := r'.hr) || (r.iHp < r.iTp && r' == r.(hp := Hi(r.log[r.iHp]), iHp := r.iHp + 1))
  {
    if (order == PublishFirst) != pc.half {
      AdvanceHead(r);
    }
  }

  /** Every step of the consumer keeps the ring and its own invariant, and is a step of the queue. */
  lemma PopperKeeps(order: StoreOrder, r: Ring, pc: Popper, r': Ring, pc': Popper, e: Event)
    requires RingInv(r) && PopperOK(order, r, pc)
    requires PopperStep(order, r, pc, r', pc', e)
    ensures RingInv(r') && PopperOK(order, r', pc')
    ensures FifoStep(Queue(r), e, Queue(r'))
    ensures r' == r.(hr := r'.hr) || (r.iHp < r.iTp && r' == r.(hp := Hi(r.log[r.iHp]), iHp := r.iHp + 1))
  {
    if pc.Advance? {
      AdvanceOK(order, r, pc, r', pc', e);
    } else {
      assert r' == r && e == Internal;
      ReadStep(order, r, pc, pc', e);
    }
  }

  /** A call that ends without having delivered a message - `try_pop` returns false - ends at its head
      load, and no record was published when it last loaded the tail. */
  lemma FalseMeansEmpty(order: StoreOrder, r: Ring, pc: Popper, r': Ring, pc': Popper, e: Event)
    requires RingInv(r) && PopperOK(order, r, pc)
    requires PopperStep(order, r, pc, r', pc', e)
    requires pc' == Resting && !pc.Resting? && !(pc.Advance? && pc.outcome.Got?)
    ensures pc.LoadHead? && pc.nothing
  {
    if pc.SawSize? {
      SizeChecksPass(order, r, pc);
    } else if pc.LoadHead? {
      OffMono(r.cap, r.log, r.iHp, pc.j);
    }
  }

  /** No call skips more than one frame. */
  lemma SkipsAtMostOnce(order: StoreOrder, r: Ring, pc: Popper)
    requires r.cap > 0 && PopperOK(order, r, pc)
    ensures pc.LoadTail? || pc.LoadHead? || pc.Inspect? || pc.SawFlags? ==> pc.skips <= 1
    ensures pc.Advance? && pc.outcome.Skipped? ==> pc.skips <= 1
  {}
}
