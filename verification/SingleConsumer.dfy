/** The single-consumer `try_pop`: plain loads and stores, no compare-and-swap.

    The multi-producer ring stores `head_publish` and then `head_reserve`; the single-producer
    ring stores them the other way round. Everything else is the same. */
module SingleConsumer {
  import opened Arithmetic
  import opened Bytes
  import opened RingLayout
  import opened FrameLog
  import opened Fifo

  datatype StoreOrder = PublishFirst | ReserveFirst

  /** What the call does once the head has moved. */
  datatype Outcome = Skipped | Got(m: Message)

  /** `skips` counts the frames skipped in this call; `j` is the history index of the tail
      snapshot; `nothing` records that no record was published at that load. */
  datatype Popper =
    | Resting
    | LoadTail(skips: nat)
    | LoadHead(skips: nat, t: nat, j: nat, nothing: bool)
    | Inspect(skips: nat, t: nat, j: nat, h: nat)
    | SawFlags(skips: nat, t: nat, j: nat, h: nat, flags: nat)
    | SawSize(t: nat, j: nat, h: nat, size: nat)
    | CopyOut(h: nat, size: nat, got: seq<byte>)
    | LoadSequence(h: nat, got: seq<byte>, typ: nat)
    | Advance(skips: nat, nh: nat, half: bool, outcome: Outcome)

  predicate PublishHead(r: Ring, nh: nat, r': Ring) {
    r' == r.(hp := nh, iHp := r.iHp + 1)
  }

  /** The two stores that move the head, and the return or the next turn of the loop. */
  predicate AdvanceStep(order: StoreOrder, r: Ring, pc: Popper, r': Ring, pc': Popper, e: Event)
    requires pc.Advance?
  {
    var publishes := (order == PublishFirst) != pc.half;
    && (if publishes then PublishHead(r, pc.nh, r') else r' == r.(hr := pc.nh))
    && e == (if publishes && pc.outcome.Got? then Pop(0, pc.outcome.m) else Internal)
    && pc' == (if !pc.half then pc.(half := true)
               else if pc.outcome.Skipped? then LoadTail(pc.skips)
               else Resting)
  }

  /** One atomic step of the consumer. */
  predicate PopperStep(order: StoreOrder, r: Ring, pc: Popper, r': Ring, pc': Popper, e: Event)
    requires 0 < r.cap == |r.mem| && r.iTp <= |r.log|
  {
    match pc
    case Resting => e == Internal && r' == r && (pc' == Resting || pc' == LoadTail(0))
    case LoadTail(skips) =>
      e == Internal && r' == r && pc' == LoadHead(skips, r.tp, r.iTp, Queue(r) == [])
    case LoadHead(skips, t, j, _) =>
      e == Internal && r' == r && pc' == (if r.hp == t then Resting else Inspect(skips, t, j, r.hp))
    case Inspect(skips, t, j, h) =>
      var at := Pos(h, r.cap);
      && e == Internal && r' == r
      && pc' == (if r.cap - at < HEADER then Advance(skips + 1, h + (r.cap - at), false, Skipped)
                 else SawFlags(skips, t, j, h, FlagsField(r.mem, at)))
    case SawFlags(skips, t, j, h, flags) =>
      var at := Pos(h, r.cap);
      && e == Internal && r' == r && at + HEADER <= r.cap
      && pc' == (if IsWrap(flags) then Advance(skips + 1, h + (r.cap - at), false, Skipped)
                 else SawSize(t, j, h, SizeField(r.mem, at)))
    case SawSize(t, _, h, size) =>
      && e == Internal && r' == r
      && pc' == (if RecordSize(size) > r.cap - Pos(h, r.cap) || Diff64(t, h) < RecordSize(size) then Resting
                 else CopyOut(h, size, []))
    case CopyOut(h, size, got) =>
      var at := Pos(h, r.cap);
      && e == Internal && r' == r && at + HEADER + size <= |r.mem|
      && pc' == (if |got| < size then CopyOut(h, size, got + [r.mem[at + HEADER + |got|]])
                 else LoadSequence(h, got, TypeField(r.mem, at)))
    case LoadSequence(h, got, typ) =>
      var at := Pos(h, r.cap);
      && e == Internal && r' == r && at + HEADER <= |r.mem|
      && pc' == Advance(0, h + RecordSize(|got|), false, Got(Message(typ, got, SequenceField(r.mem, at))))
    case Advance(_, _, _, _) => AdvanceStep(order, r, pc, r', pc', e)
  }

  // ---- Invariant -----------------------------------------------------------------------

  /** At most one frame is skipped in a call, and it was the padding just behind the head. */
  predicate SkipOK(r: Ring, skips: nat) {
    skips == 0 || (skips == 1 && 0 < r.iHp <= |r.log| && r.log[r.iHp - 1].Pad?)
  }

  /** The tail snapshot is a frame boundary at or after the head. */
  predicate SnapshotOK(r: Ring, t: nat, j: nat) {
    r.iHp <= j <= r.iTp <= |r.log| && t == Off(r.log, j)
  }

  predicate AtRecord(r: Ring, h: nat) {
    r.iHp < r.iTp <= |r.log| && h == r.hp && r.log[r.iHp].Rec?
  }

  predicate PopperOK(order: StoreOrder, r: Ring, pc: Popper)
    requires r.cap > 0
  {
    match pc
    case Resting => true
    case LoadTail(skips) => SkipOK(r, skips)
    case LoadHead(skips, t, j, nothing) => SkipOK(r, skips) && SnapshotOK(r, t, j) && (j == r.iHp ==> nothing)
    case Inspect(skips, t, j, h) => SkipOK(r, skips) && SnapshotOK(r, t, j) && r.iHp < j && h == r.hp
    case SawFlags(skips, t, j, h, flags) =>
      && SkipOK(r, skips) && SnapshotOK(r, t, j) && r.iHp < j && h == r.hp
      && Pos(h, r.cap) + HEADER <= r.cap
      && (IsWrap(flags) <==> r.log[r.iHp].Pad?)
    case SawSize(t, j, h, size) =>
      SnapshotOK(r, t, j) && r.iHp < j && AtRecord(r, h) && size == |r.log[r.iHp].payload|
    case CopyOut(h, size, got) =>
      && AtRecord(r, h) && size == |r.log[r.iHp].payload|
      && |got| <= size && got == r.log[r.iHp].payload[..|got|]
    case LoadSequence(h, got, typ) =>
      AtRecord(r, h) && got == r.log[r.iHp].payload && typ == r.log[r.iHp].typ
    case Advance(skips, nh, half, outcome) =>
      if half && order == PublishFirst then
        nh == r.hp && (outcome.Skipped? ==> skips == 1 && SkipOK(r, skips))
      else
        && r.iHp < r.iTp <= |r.log| && nh == Hi(r.log[r.iHp])
        && match outcome
           case Skipped => skips == 1 && r.log[r.iHp].Pad?
           case Got(m) => r.log[r.iHp].Rec? && m == MessageOf(r.log[r.iHp])
  }
}
