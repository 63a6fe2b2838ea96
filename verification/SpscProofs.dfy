/** Every step of the single producer, and every crash, keeps the invariant. */
module SpscProofs {
  import opened Arithmetic
  import opened Bytes
  import opened RingLayout
  import opened FrameLog
  import opened FrameLogFacts
  import opened Fifo
  import opened SpscRing

  lemma DraftFits(r: Ring, pc: Pusher)
    requires RingInv(r) && r.iTp == |r.log| && pc.Filling? && PusherOK(r, pc)
    ensures RingInv(r.(log := r.log + [Draft(r.cap, pc, 0)]))
  {
    AppendFrame(r, Draft(r.cap, pc, 0));
  }

  lemma DropDraft(r: Ring, f: Frame)
    requires RingInv(r.(log := r.log + [f])) && r.iTp <= |r.log|
    ensures RingInv(r)
  {
    DropFrame(r.cap, r.log, f);
    hide LogOK, Stored, Off;
    DropOffset(r.log, f, r.iHp);
    DropOffset(r.log, f, r.iTp);
    forall i | r.iHp <= i < r.iTp
      ensures Stored(r.cap, r.mem, r.log[i])
    {
      assert Stored(r.cap, r.mem, (r.log + [f])[i]);
    }
  }

  lemma DropOffset(log: seq<Frame>, f: Frame, i: nat)
    requires i <= |log|
    ensures Off(log + [f], i) == Off(log, i)
  {}

  lemma DropFrame(cap: nat, log: seq<Frame>, f: Frame)
    requires cap > 0 && LogOK(cap, log + [f])
    ensures LogOK(cap, log) && Off(log, |log|) <= Off(log + [f], |log| + 1)
  {
    hide FrameOK;
    var log' := log + [f];
    forall i | 0 <= i < |log|
      ensures FrameOK(cap, log[i]) && log[i].lo == Off(log, i)
    {
      assert log'[i] == log[i] && FrameOK(cap, log'[i]) && log'[i].lo == Off(log', i);
    }
    assert log'[|log|].lo == Off(log', |log|);
  }

  /** A store at the tail leaves the published region alone. */
  lemma StoreKeepsShared(r: Ring, pc: Pusher)
    requires RingInv(r) && r.iTp == |r.log| && Writing(pc) && PusherOK(r, pc)
    ensures StoreAt(r.cap, pc) + |StoreBytes(pc)| <= |r.mem|
    ensures RingInv(r.(mem := Write(r.mem, StoreAt(r.cap, pc), StoreBytes(pc))))
  {
    var f := Draft(r.cap, pc, 0);
    var r' := r.(log := r.log + [f]);
    DraftFits(r, pc);
    StoreKeepsRing(r', |r.log|, StoreAt(r.cap, pc), StoreBytes(pc));
    DropDraft(r.(mem := Write(r.mem, StoreAt(r.cap, pc), StoreBytes(pc))), f);
  }

  /** The effect of a store on what the producer has written. */
  lemma StageWritten(cap: nat, mem: seq<byte>, pc: Pusher)
    requires cap > 0 && Writing(pc) && StageMem(cap, mem, pc) && !pc.stage.WrapHeader?
    requires Pos(pc.t, cap) + RecordSize(|pc.req.payload|) <= |mem|
    ensures AfterStore(cap, pc).Filling?
    ensures StageMem(cap, Write(mem, StoreAt(cap, pc), StoreBytes(pc)), AfterStore(cap, pc))
  {
    hide HeaderFields, RecordBytes, FieldBytes, Holds;
    var q, at := pc.req, Pos(pc.t, cap);
    match pc.stage
    case RecordHeader(j) =>
      HeaderFieldStored(mem, at, |q.payload|, q.typ, 0, 0, j);
      if j == 3 { HeaderComplete(Write(mem, StoreAt(cap, pc), StoreBytes(pc)), at, q, 0); }
    case Copy(k) => PayloadByteStored(mem, at, q, 0, k);
    case Bumped(n) => SequenceStored(mem, at, q, 0, n);
  }

  lemma WrapWritten(cap: nat, mem: seq<byte>, pc: Pusher)
    requires cap > 0 && Writing(pc) && StageMem(cap, mem, pc) && pc.stage.WrapHeader?
    requires Pos(pc.t, cap) + HEADER <= |mem|
    ensures var mem' := Write(mem, StoreAt(cap, pc), StoreBytes(pc));
            if pc.stage.j < 3 then StageMem(cap, mem', AfterStore(cap, pc))
            else Holds(mem', Pos(pc.t, cap) + 6, LE(WRAP_FLAG, 2))
  {
    HeaderFieldStored(mem, Pos(pc.t, cap), 0, 0, WRAP_FLAG, 0, pc.stage.j);
    if pc.stage.j == 3 {
      var mem' := Write(mem, StoreAt(cap, pc), StoreBytes(pc));
      assert Holds(mem', FieldAt(Pos(pc.t, cap), 2), FieldBytes(0, 0, WRAP_FLAG, 0, 2));
    }
  }

  lemma StoreKeepsPusher(r: Ring, pc: Pusher, r': Ring)
    requires RingInv(r) && Writing(pc) && PusherOK(r, pc)
    requires StoreAt(r.cap, pc) + |StoreBytes(pc)| <= |r.mem|
    requires r' == r.(mem := Write(r.mem, StoreAt(r.cap, pc), StoreBytes(pc)))
    ensures PusherOK(r', AfterStore(r.cap, pc))
  {
    hide HeaderFields, RecordBytes, Holds, FieldBytes, LogOK, Committed;
    if pc.stage.WrapHeader? {
      WrapWritten(r.cap, r.mem, pc);
    } else {
      StageWritten(r.cap, r.mem, pc);
    }
  }

  /** A decision of the push loop leads to a state that is right for what it does next. */
  lemma DecisionOK(r: Ring, pc: Pusher)
    requires RingInv(r) && PusherOK(r, pc) && pc.Decide?
    ensures PusherOK(r, Decision(r.cap, pc))
  {}

  lemma AppendOrds(log: seq<Frame>, f: Frame)
    requires IncreasingOrds(log) && f.ord >= OrdAt(log, |log|)
    ensures IncreasingOrds(log + [f])
  {
    var log' := log + [f];
    forall i | 0 <= i < |log'|
      ensures log'[i].ord >= OrdAt(log', i)
    {
      if i < |log| { assert log[i].ord >= OrdAt(log, i); }
    }
  }

  /** Publishing one finished frame at the tail. */
  lemma PublishFrame(r: Ring, f: Frame)
    requires RingInv(r) && r.iTp == |r.log|
    requires f.lo == r.tp && FrameOK(r.cap, f) && Hi(f) <= r.hp + r.cap && Stored(r.cap, r.mem, f)
    ensures var r' := r.(tp := Hi(f), log := r.log + [f], iTp := r.iTp + 1);
            && RingInv(r') && r'.iTp == |r'.log|
            && Queue(r') == Queue(r) + (if f.Rec? then [MessageOf(f)] else [])
  {
    AppendFrame(r, f);
    MessagesPrefix(r.log, r.log + [f], r.iHp, |r.log|);
    var r' := r.(tp := Hi(f), log := r.log + [f], iTp := r.iTp + 1);
    forall i | r'.iHp <= i < r'.iTp
      ensures Stored(r'.cap, r'.mem, r'.log[i])
    {
      if i < |r.log| { assert Stored(r.cap, r.mem, r.log[i]); }
    }
  }

  lemma SkipKeeps(r: Ring, pc: Pusher, r': Ring, pc': Pusher, e: Event)
    requires WriterInv(r, pc) && pc.SkipTail? && pc.half && PusherStep(r, pc, r', pc', e)
    ensures WriterInv(r', pc') && Queue(r') == Queue(r)
  {
    var f := Pad(r.tp, pc.nt - r.tp, OrdAt(r.log, |r.log|), 0);
    PublishFrame(r, f);
    AppendOrds(r.log, f);
  }

  lemma PublishKeeps(r: Ring, pc: Pusher, r': Ring, pc': Pusher, e: Event)
    requires WriterInv(r, pc) && pc.PublishTail? && PusherStep(r, pc, r', pc', e)
    ensures WriterInv(r', pc') && FifoStep(Queue(r), e, Queue(r'))
  {
    assert r.cap > 0;
    hide RingInv, FrameOK, Stored, RecordBytes, IncreasingOrds, Messages, Pos;
    var f := Rec(pc.t, pc.req.typ, pc.req.payload, pc.n - 1, 0);
    RecordReady(r, pc, f);
    PublishFrame(r, f);
    AppendOrds(r.log, f);
  }

  lemma RecordReady(r: Ring, pc: Pusher, f: Frame)
    requires r.cap > 0 && pc.PublishTail? && PusherOK(r, pc) && f == Rec(pc.t, pc.req.typ, pc.req.payload, pc.n - 1, 0)
    ensures FrameOK(r.cap, f) && Stored(r.cap, r.mem, f) && f.ord >= OrdAt(r.log, |r.log|)
    ensures f.lo == r.tp && Hi(f) <= r.hp + r.cap
  {
    hide RecordBytes, Pos;
    assert Request(f.typ, f.payload) == pc.req;
  }

  lemma StoreKeeps(r: Ring, pc: Pusher, r': Ring, pc': Pusher, e: Event)
    requires WriterInv(r, pc) && Writing(pc) && PusherStep(r, pc, r', pc', e)
    ensures WriterInv(r', pc') && Queue(r') == Queue(r)
  {
    StoreKeepsShared(r, pc);
    StoreKeepsPusher(r, pc, r');
  }

  /** What the writer's invariant says beyond the frame being written. */
  predicate Between(r: Ring) {
    RingInv(r) && r.iTp == |r.log| && IncreasingOrds(r.log) && OrdAt(r.log, |r.log|) <= r.sq
  }

  lemma CountersKeepBetween(r: Ring, r': Ring)
    requires Between(r) && r' == r.(tr := r'.tr, sq := r'.sq) && r.sq <= r'.sq
    ensures Between(r') && Queue(r') == Queue(r)
  {}

  /** Steps that change at most `tail_reserve`, the sequence counter and the program counter. */
  lemma PlainKeeps(r: Ring, pc: Pusher, r': Ring, pc': Pusher, e: Event)
    requires WriterInv(r, pc) && PusherStep(r, pc, r', pc', e)
    requires !Writing(pc) && !pc.PublishTail? && !(pc.SkipTail? && pc.half)
    ensures WriterInv(r', pc') && Queue(r') == Queue(r) && e == Internal
  {
    PlainMove(r, pc, r', pc', e);
    hide PusherStep, PusherOK;
    CountersKeepBetween(r, r');
  }

  lemma PlainMove(r: Ring, pc: Pusher, r': Ring, pc': Pusher, e: Event)
    requires Between(r) && PusherOK(r, pc) && PusherStep(r, pc, r', pc', e)
    requires !Writing(pc) && !pc.PublishTail? && !(pc.SkipTail? && pc.half)
    ensures PusherOK(r', pc') && e == Internal && r' == r.(tr := r'.tr, sq := r'.sq) && r.sq <= r'.sq
  {
    TailFollowsHead(r);
    if pc.Decide? {
      DecisionOK(r, pc);
    }
    hide Between, RingInv, IncreasingOrds, Pos, HeaderFields, RecordBytes, Holds, FrameOK, Decision;
    PlainPusher(r, pc, r', pc', e);
  }

  lemma TailFollowsHead(r: Ring)
    requires RingInv(r)
    ensures r.hp <= r.tp && r.cap > 0
  {
    OffMono(r.cap, r.log, r.iHp, r.iTp);
  }

  lemma PlainPusher(r: Ring, pc: Pusher, r': Ring, pc': Pusher, e: Event)
    requires r.cap > 0 && r.hp <= r.tp && OrdAt(r.log, |r.log|) <= r.sq
    requires PusherOK(r, pc) && (pc.Decide? ==> PusherOK(r, Decision(r.cap, pc))) && PusherStep(r, pc, r', pc', e)
    requires !Writing(pc) && !pc.PublishTail? && !(pc.SkipTail? && pc.half)
    ensures PusherOK(r', pc') && e == Internal && r' == r.(tr := r'.tr, sq := r'.sq) && r.sq <= r'.sq
  {
    hide HeaderFields, RecordBytes, Holds, Decision, Pos, OrdAt;
  }

  /** Every step of the producer keeps the invariant and is a step of the queue. */
  lemma PusherKeeps(r: Ring, pc: Pusher, r': Ring, pc': Pusher, e: Event)
    requires WriterInv(r, pc) && PusherStep(r, pc, r', pc', e)
    ensures WriterInv(r', pc')
    ensures FifoStep(Queue(r), e, Queue(r'))
    ensures r'.cap == r.cap && r'.hp == r.hp && r'.iHp == r.iHp && r.log <= r'.log && r.iTp <= r'.iTp && r.sq <= r'.sq
  {
    if Writing(pc) {
      StoreKeeps(r, pc, r', pc', e);
    } else if pc.PublishTail? {
      PublishKeeps(r, pc, r', pc', e);
    } else if pc.SkipTail? && pc.half {
      SkipKeeps(r, pc, r', pc', e);
    } else {
      PlainKeeps(r, pc, r', pc', e);
    }
  }

  /** A producer that dies after any step leaves a ring its successor can go on with. */
  lemma CrashKeeps(r: Ring, pc: Pusher, r': Ring, pc': Pusher, e: Event)
    requires WriterInv(r, pc) && CrashStep(r, r', pc', e)
    ensures WriterInv(r', pc') && Queue(r') == Queue(r)
  {}

  /** The consumer moving the head does not disturb the producer. */
  lemma HeadMoveKeepsWriter(r: Ring, pc: Pusher, r': Ring)
    requires WriterInv(r, pc) && RingInv(r')
    requires r' == r.(hr := r'.hr) || (r.iHp < r.iTp <= |r.log| && r' == r.(hp := Hi(r.log[r.iHp]), iHp := r.iHp + 1))
    ensures WriterInv(r', pc)
  {
    assert r.cap > 0;
    hide RingInv, PusherOK, IncreasingOrds;
    if r' != r.(hr := r'.hr) { AdvanceHead(r); }
    HeadMovesPusher(r, pc, r');
  }

  /** The producer does not mind the head moving on. */
  lemma HeadMovesPusher(r: Ring, pc: Pusher, r': Ring)
    requires r.cap > 0 && PusherOK(r, pc) && r' == r.(hr := r'.hr, hp := r'.hp, iHp := r'.iHp) && r.hp <= r'.hp
    ensures PusherOK(r', pc)
  {
    hide StageMem, RecordBytes, Holds, Pos, FrameOK, Draft;
  }

  /** The published messages grow by the pushed one. */
  lemma PusherPublishes(r: Ring, pc: Pusher, r': Ring, pc': Pusher, e: Event)
    requires r.cap > 0 && r.iTp == |r.log| && PusherStep(r, pc, r', pc', e)
    requires pc.PublishTail? ==> pc.n > 0
    ensures r'.iTp == |r'.log|
    ensures Messages(r'.log, 0, r'.iTp) == Messages(r.log, 0, r.iTp) + (if e.Push? then [e.pushed] else [])
  {
    MessagesPrefix(r.log, r'.log, 0, r.iTp);
  }
}
