/** The multi-consumer ring: consumers read a frame header speculatively, claim the frame by
    compare-and-swap on `head_reserve`, copy it out, and hand it back in claim order through
    `head_publish`. Any number of producers and consumers take steps in any order.

    `claims` is the history of successful claims: `claims[i]` is the consumer that claimed
    frame `i`. */
module MpmcRing {
  import opened Arithmetic
  import opened Bytes
  import opened RingLayout
  import opened FrameLog
  import opened Fifo

  /** What a consumer still has to do with the frame it has claimed. */
  datatype Task =
    | Skip(turn: bool)
    | CopyOut(size: nat, got: seq<byte>)
    | LoadSequence(got: seq<byte>, typ: nat)
    | HandBack(got: seq<byte>, typ: nat, sequence: nat, turn: bool)

  datatype Consumer =
    | Resting
    | LoadPublished
    | LoadReserved(t: nat)
    | Inspect(t: nat, h: nat)
    | SawFlags(t: nat, h: nat, flags: nat)
    | SawSize(t: nat, h: nat, size: nat)
    | Claimed(h: nat, nh: nat, idx: nat, task: Task)

  // ---- Steps ---------------------------------------------------------------------------

  /** The weak compare-and-swap on `head_reserve`: it may fail even on an equal value. */
  predicate ClaimStep(r: Ring, claims: seq<nat>, c: nat, h: nat, nh: nat, task: Task,
                      r': Ring, claims': seq<nat>, pc': Consumer)
  {
    || (r' == r && claims' == claims && pc' == LoadPublished)
    || (&& r.hr == h
        && r' == r.(hr := nh) && claims' == claims + [c]
        && pc' == Claimed(h, nh, |claims|, task))
  }

  predicate InspectStep(r: Ring, claims: seq<nat>, c: nat, t: nat, h: nat, r': Ring, claims': seq<nat>, pc': Consumer)
    requires 0 < r.cap == |r.mem|
  {
    var remaining, available := r.cap - Pos(h, r.cap), Diff64(t, h);
    if remaining < HEADER then
      if available < remaining then r' == r && claims' == claims && pc' == Resting
      else ClaimStep(r, claims, c, h, h + remaining, Skip(false), r', claims', pc')
    else if available < HEADER then
      r' == r && claims' == claims && pc' == Resting
    else
      r' == r && claims' == claims && pc' == SawFlags(t, h, FlagsField(r.mem, Pos(h, r.cap)))
  }

  predicate FlagsStep(r: Ring, claims: seq<nat>, c: nat, pc: Consumer, r': Ring, claims': seq<nat>, pc': Consumer)
    requires 0 < r.cap == |r.mem| && pc.SawFlags?
  {
    var remaining, available := r.cap - Pos(pc.h, r.cap), Diff64(pc.t, pc.h);
    if IsWrap(pc.flags) then
      if available < remaining then r' == r && claims' == claims && pc' == Resting
      else ClaimStep(r, claims, c, pc.h, pc.h + remaining, Skip(false), r', claims', pc')
    else
      && Pos(pc.h, r.cap) + HEADER <= r.cap
      && r' == r && claims' == claims
      && pc' == SawSize(pc.t, pc.h, SizeField(r.mem, Pos(pc.h, r.cap)))
  }

  predicate SizeStep(r: Ring, claims: seq<nat>, c: nat, pc: Consumer, r': Ring, claims': seq<nat>, pc': Consumer)
    requires r.cap > 0 && pc.SawSize?
  {
    var remaining, available := r.cap - Pos(pc.h, r.cap), Diff64(pc.t, pc.h);
    var size := RecordSize(pc.size);
    if size > remaining || available < size then r' == r && claims' == claims && pc' == Resting
    else ClaimStep(r, claims, c, pc.h, pc.h + size, CopyOut(pc.size, []), r', claims', pc')
  }

  /** The store to `head_publish`. */
  predicate HandBackStep(r: Ring, pc: Consumer, r': Ring)
    requires pc.Claimed?
  {
    r' == r.(hp := pc.nh, iHp := pc.idx + 1)
  }

  predicate TaskStep(r: Ring, c: nat, pc: Consumer, r': Ring, pc': Consumer, e: Event)
    requires 0 < r.cap == |r.mem| && pc.Claimed?
  {
    var at := Pos(pc.h, r.cap);
    match pc.task
    case Skip(turn) =>
      && e == Internal
      && if turn then HandBackStep(r, pc, r') && pc' == LoadPublished
         else r' == r && pc' == pc.(task := Skip(r.hp == pc.h))
    case CopyOut(size, got) =>
      && e == Internal && r' == r
      && at + HEADER + size <= |r.mem|
      && pc' == pc.(task := if |got| < size then CopyOut(size, got + [r.mem[at + HEADER + |got|]])
                            else LoadSequence(got, TypeField(r.mem, at)))
    case LoadSequence(got, typ) =>
      && e == Internal && r' == r
      && at + HEADER <= |r.mem|
      && pc' == pc.(task := HandBack(got, typ, SequenceField(r.mem, at), false))
    case HandBack(got, typ, sequence, turn) =>
      if turn then
        HandBackStep(r, pc, r') && pc' == Resting && e == Pop(c, Message(typ, got, sequence))
      else
        e == Internal && r' == r && pc' == pc.(task := HandBack(got, typ, sequence, r.hp == pc.h))
  }

  /** One atomic step of consumer `c`. */
  predicate ConsumerStep(r: Ring, claims: seq<nat>, c: nat, pc: Consumer,
                         r': Ring, claims': seq<nat>, pc': Consumer, e: Event)
    requires 0 < r.cap == |r.mem|
  {
    match pc
    case Resting =>
      e == Internal && r' == r && claims' == claims && (pc' == Resting || pc' == LoadPublished)
    case LoadPublished =>
      e == Internal && r' == r && claims' == claims && pc' == LoadReserved(r.tp)
    case LoadReserved(t) =>
      e == Internal && r' == r && claims' == claims && pc' == if r.hr == t then Resting else Inspect(t, r.hr)
    case Inspect(t, h) => e == Internal && InspectStep(r, claims, c, t, h, r', claims', pc')
    case SawFlags(_, _, _) => e == Internal && FlagsStep(r, claims, c, pc, r', claims', pc')
    case SawSize(_, _, _) => e == Internal && SizeStep(r, claims, c, pc, r', claims', pc')
    case Claimed(_, _, _, _) => claims' == claims && TaskStep(r, c, pc, r', pc', e)
  }

  /** The load of `head_reserve` is about to pass a stale load of `tail_publish` while every
      published frame is already claimed. */
  predicate Stale(r: Ring, pc: Consumer) {
    pc.LoadReserved? && pc.t < r.hr == r.tp
  }

  // ---- Invariant -----------------------------------------------------------------------

  predicate TaskOK(r: Ring, f: Frame, idx: nat, task: Task) {
    match task
    case Skip(turn) => f.Pad? && (turn ==> idx == r.iHp)
    case CopyOut(size, got) => f.Rec? && size == |f.payload| && |got| <= size && got == f.payload[..|got|]
    case LoadSequence(got, typ) => f.Rec? && got == f.payload && typ == f.typ
    case HandBack(got, typ, sequence, turn) =>
      && f.Rec? && got == f.payload && typ == f.typ && sequence == (f.ord + 1) % TWO64
      && (turn ==> idx == r.iHp)
  }

  /** Until its compare-and-swap, what a consumer has read counts only while `head_reserve`
      still equals its snapshot; then it is the header of the next unclaimed frame. */
  predicate ConsumerOK(r: Ring, claims: seq<nat>, c: nat, pc: Consumer)
    requires r.cap > 0
  {
    match pc
    case Resting => true
    case LoadPublished => true
    case LoadReserved(t) => t <= r.tp
    case Inspect(_, h) => h <= r.hr && (h == r.hr ==> |claims| < r.iTp <= |r.log|)
    case SawFlags(_, h, flags) =>
      && h <= r.hr && Pos(h, r.cap) + HEADER <= r.cap
      && (h == r.hr ==> |claims| < r.iTp <= |r.log| && (IsWrap(flags) <==> r.log[|claims|].Pad?))
    case SawSize(_, h, size) =>
      && h <= r.hr
      && (h == r.hr ==> && |claims| < r.iTp <= |r.log|
                        && r.log[|claims|].Rec? && size == |r.log[|claims|].payload|)
    case Claimed(h, nh, idx, task) =>
      && r.iHp <= idx < |claims| <= |r.log| && claims[idx] == c
      && r.log[idx].lo == h && Hi(r.log[idx]) == nh
      && TaskOK(r, r.log[idx], idx, task)
  }

  predicate HoldsClaim(cons: seq<Consumer>, c: nat, i: nat) {
    c < |cons| && cons[c].Claimed? && cons[c].idx == i
  }

  predicate AllConsumers(r: Ring, claims: seq<nat>, cons: seq<Consumer>)
    requires r.cap > 0
  {
    forall c :: 0 <= c < |cons| ==> ConsumerOK(r, claims, c, cons[c])
  }

  predicate ConsumersInv(r: Ring, claims: seq<nat>, cons: seq<Consumer>)
    requires r.cap > 0
  {
    match r
    case Ring(_, hr, _, _, _, _, _, log, iHp, iTp) =>
      && iHp <= |claims| <= iTp <= |log|
      && hr == Off(log, |claims|)
      && AllConsumers(r, claims, cons)
      && (forall i :: iHp <= i < |claims| ==> HoldsClaim(cons, claims[i], i))
  }
}
