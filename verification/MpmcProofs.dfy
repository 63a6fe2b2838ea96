/** Every fresh step of every consumer keeps the invariant and is a step of the queue. */
module MpmcProofs {
  import opened Arithmetic
  import opened Bytes
  import opened RingLayout
  import opened FrameLog
  import opened FrameLogFacts
  import opened Fifo
  import opened RingWriter
  import opened RingWriterProofs
  import opened MpmcRing

  // ---- Producers do not disturb consumers, nor consumers producers ------------------------------

  lemma WriterKeepsConsumers(r: Ring, claims: seq<nat>, cons: seq<Consumer>, r': Ring)
    requires r.cap > 0 && ConsumersInv(r, claims, cons)
    requires WriterEffect(r, r') && r'.iTp <= |r'.log|
    ensures ConsumersInv(r', claims, cons)
  {}

  /** Reservations of other consumers do not matter to producers. */
  lemma ClaimKeepsWriter(r: Ring, prods: seq<Producer>, hr': nat)
    requires WriterInv(r, prods)
    ensures WriterInv(r.(hr := hr'), prods)
  {
    var r' := r.(hr := hr');
    forall p | 0 <= p < |prods|
      ensures ProducerOK(r', p, prods[p])
    {
      assert ProducerOK(r, p, prods[p]);
    }
  }

  lemma HandBackKeepsWriter(r: Ring, prods: seq<Producer>)
    requires WriterInv(r, prods) && r.iHp < r.iTp
    ensures WriterInv(r.(hp := Hi(r.log[r.iHp]), iHp := r.iHp + 1), prods)
  {
    var r' := r.(hp := Hi(r.log[r.iHp]), iHp := r.iHp + 1);
    AdvanceHead(r);
    forall p | 0 <= p < |prods|
      ensures ProducerOK(r', p, prods[p])
    {
      assert ProducerOK(r, p, prods[p]);
    }
  }

  // ---- Proof that every consumer step keeps the invariant -----------------------------------------

  /** What a consumer finds at its head snapshot while no other consumer has claimed it. */
  lemma NextFrame(r: Ring, claims: seq<nat>, cons: seq<Consumer>)
    requires RingInv(r) && ConsumersInv(r, claims, cons) && |claims| < r.iTp
    ensures r.log[|claims|].lo == r.hr
    ensures Off(r.log, |claims| + 1) == Hi(r.log[|claims|])
  {}

  lemma UnclaimedLeft(r: Ring, claims: seq<nat>, cons: seq<Consumer>, pc: Consumer)
    requires RingInv(r) && ConsumersInv(r, claims, cons)
    requires pc.LoadReserved? && pc.t <= r.tp && !Stale(r, pc) && r.hr != pc.t
    ensures |claims| < r.iTp
  {}

  lemma SpeculationOK(r: Ring, claims: seq<nat>, cons: seq<Consumer>, c: nat, pc: Consumer, pc': Consumer, e: Event)
    requires RingInv(r) && ConsumersInv(r, claims, cons) && ConsumerOK(r, claims, c, pc)
    requires !pc.Claimed? && !pc'.Claimed? && !Stale(r, pc)
    requires ConsumerStep(r, claims, c, pc, r, claims, pc', e)
    ensures ConsumerOK(r, claims, c, pc')
  {
    if pc.LoadReserved? && pc'.Inspect? {
      UnclaimedLeft(r, claims, cons, pc);
    } else if pc.Inspect? && pc'.SawFlags? && pc.h == r.hr {
      NextFrame(r, claims, cons);
      ReadFlags(r, |claims|);
    } else if pc.SawFlags? && pc'.SawSize? && pc.h == r.hr {
      NextFrame(r, claims, cons);
      ReadRecord(r, |claims|);
    }
  }

  lemma TaskProgress(r: Ring, claims: seq<nat>, cons: seq<Consumer>, c: nat, pc: Consumer, pc': Consumer, e: Event)
    requires RingInv(r) && ConsumersInv(r, claims, cons) && ConsumerOK(r, claims, c, pc)
    requires pc.Claimed? && pc'.Claimed? && ConsumerStep(r, claims, c, pc, r, claims, pc', e)
    ensures ConsumerOK(r, claims, c, pc')
    ensures pc'.idx == pc.idx
  {
    assert pc.idx < r.iTp;
    TaskAdvance(r, c, pc, pc', e);
  }

  lemma TaskAdvance(r: Ring, c: nat, pc: Consumer, pc': Consumer, e: Event)
    requires RingInv(r) && pc.Claimed? && r.iHp <= pc.idx < r.iTp
    requires r.log[pc.idx].lo == pc.h && TaskOK(r, r.log[pc.idx], pc.idx, pc.task)
    requires pc'.Claimed? && TaskStep(r, c, pc, r, pc', e)
    ensures pc' == pc.(task := pc'.task) && TaskOK(r, r.log[pc.idx], pc.idx, pc'.task)
  {
    match pc.task
    case Skip(_) => SeesTurn(r, pc.idx);
    case CopyOut(size, got) => CopyProgress(r, pc.idx, got);
    case LoadSequence(_, _) => ReadRecord(r, pc.idx);
    case HandBack(_, _, _, _) => SeesTurn(r, pc.idx);
  }

  lemma CopyProgress(r: Ring, i: nat, got: seq<byte>)
    requires RingInv(r) && r.iHp <= i < r.iTp && r.log[i].Rec?
    requires |got| <= |r.log[i].payload| && got == r.log[i].payload[..|got|]
    ensures var p, payload := Pos(r.log[i].lo, r.cap), r.log[i].payload;
            && p + HEADER + |payload| <= |r.mem|
            && (|got| < |payload| ==> got + [r.mem[p + HEADER + |got|]] == payload[..|got| + 1])
            && (|got| == |payload| ==> got == payload && TypeField(r.mem, p) == r.log[i].typ)
  {
    ReadRecord(r, i);
    if |got| < |r.log[i].payload| {
      CopiedByte(r, i, |got|);
    }
  }

  lemma CopiedByte(r: Ring, i: nat, k: nat)
    requires RingInv(r) && r.iHp <= i < r.iTp && r.log[i].Rec? && k < |r.log[i].payload|
    ensures Pos(r.log[i].lo, r.cap) + HEADER + k < |r.mem|
    ensures r.log[i].payload[..k] + [r.mem[Pos(r.log[i].lo, r.cap) + HEADER + k]] == r.log[i].payload[..k + 1]
  {}

  /** `head_publish` at the start of a claimed frame means that it is next to be handed back. */
  lemma SeesTurn(r: Ring, i: nat)
    requires RingInv(r) && r.iHp <= i < |r.log|
    ensures r.hp == r.log[i].lo ==> i == r.iHp
  {
    assert r.log[i].lo == Off(r.log, i);
    OffMono(r.cap, r.log, r.iHp, i);
  }

  /** Steps that change nothing shared. */
  lemma QuietKeeps(r: Ring, claims: seq<nat>, cons: seq<Consumer>, c: nat, pc': Consumer, e: Event)
    requires RingInv(r) && ConsumersInv(r, claims, cons) && c < |cons| && !Stale(r, cons[c])
    requires ConsumerStep(r, claims, c, cons[c], r, claims, pc', e)
    requires cons[c].Claimed? <==> pc'.Claimed?
    ensures ConsumersInv(r, claims, cons[c := pc'])
  {
    var pc := cons[c];
    assert ConsumerOK(r, claims, c, pc);
    if pc.Claimed? {
      TaskProgress(r, claims, cons, c, pc, pc', e);
    } else {
      SpeculationOK(r, claims, cons, c, pc, pc', e);
    }
    var cons' := cons[c := pc'];
    forall i | r.iHp <= i < |claims|
      ensures HoldsClaim(cons', claims[i], i)
    {
      assert HoldsClaim(cons, claims[i], i);
    }
  }

  /** A successful claim takes exactly the next unclaimed frame, and its header was read right. */
  lemma ClaimTakesNext(r: Ring, claims: seq<nat>, cons: seq<Consumer>, c: nat, pc: Consumer,
                       r': Ring, claims': seq<nat>, pc': Consumer, e: Event)
    requires RingInv(r) && ConsumersInv(r, claims, cons) && ConsumerOK(r, claims, c, pc)
    requires !pc.Claimed? && pc'.Claimed?
    requires ConsumerStep(r, claims, c, pc, r', claims', pc', e)
    ensures |claims| < r.iTp && claims' == claims + [c]
    ensures r' == r.(hr := Hi(r.log[|claims|]))
    ensures pc' == Claimed(r.hr, r'.hr, |claims|, pc'.task) && r.log[|claims|].lo == r.hr
    ensures pc'.task == if r.log[|claims|].Pad? then Skip(false) else CopyOut(|r.log[|claims|].payload|, [])
  {
    NextFrame(r, claims, cons);
    if pc.Inspect? {
      ShortTail(r, |claims|);
    } else if pc.SawFlags? {
      assert FrameOK(r.cap, r.log[|claims|]);
    }
  }

  lemma ClaimKeeps(r: Ring, claims: seq<nat>, cons: seq<Consumer>, c: nat,
                   r': Ring, claims': seq<nat>, pc': Consumer, e: Event)
    requires RingInv(r) && ConsumersInv(r, claims, cons) && c < |cons|
    requires !cons[c].Claimed? && pc'.Claimed?
    requires ConsumerStep(r, claims, c, cons[c], r', claims', pc', e)
    ensures ConsumersInv(r', claims', cons[c := pc'])
  {
    assert ConsumerOK(r, claims, c, cons[c]);
    ClaimTakesNext(r, claims, cons, c, cons[c], r', claims', pc', e);
    ClaimKeepsAll(r, claims, cons, c, r', claims', pc');
    var cons' := cons[c := pc'];
    forall i | r.iHp <= i < |claims'|
      ensures HoldsClaim(cons', claims'[i], i)
    {
      if i < |claims| { assert HoldsClaim(cons, claims[i], i); }
    }
  }

  lemma ClaimKeepsAll(r: Ring, claims: seq<nat>, cons: seq<Consumer>, c: nat,
                      r': Ring, claims': seq<nat>, pc': Consumer)
    requires RingInv(r) && ConsumersInv(r, claims, cons) && c < |cons|
    requires |claims| < r.iTp && claims' == claims + [c]
    requires r' == r.(hr := Hi(r.log[|claims|])) && r.log[|claims|].lo == r.hr
    requires pc'.Claimed? && pc' == Claimed(r.hr, r'.hr, |claims|, pc'.task)
    requires pc'.task == if r.log[|claims|].Pad? then Skip(false) else CopyOut(|r.log[|claims|].payload|, [])
    ensures AllConsumers(r', claims', cons[c := pc'])
  {
    assert FrameOK(r.cap, r.log[|claims|]);
    var cons' := cons[c := pc'];
    forall i | 0 <= i < |cons'|
      ensures ConsumerOK(r', claims', i, cons'[i])
    {
      assert ConsumerOK(r, claims, i, cons[i]);
    }
  }

  /** A frame is handed back in order; a record is delivered as it was pushed and ends the call, after
      padding the call goes on. */
  lemma HandBackIsNext(r: Ring, claims: seq<nat>, c: nat, pc: Consumer, r': Ring, pc': Consumer, e: Event)
    requires RingInv(r) && ConsumerOK(r, claims, c, pc)
    requires pc.Claimed? && !pc'.Claimed? && ConsumerStep(r, claims, c, pc, r', claims, pc', e)
    ensures pc.idx == r.iHp < |r.log| && r.iHp < |claims| && claims[r.iHp] == c
    ensures HandBackStep(r, pc, r')
    ensures pc' == if r.log[r.iHp].Rec? then Resting else LoadPublished
    ensures e == if r.log[r.iHp].Rec? then Pop(c, MessageOf(r.log[r.iHp])) else Internal
  {}

  /** Handing a frame back. */
  lemma HandBackKeeps(r: Ring, claims: seq<nat>, cons: seq<Consumer>, c: nat, r': Ring, pc': Consumer)
    requires RingInv(r) && ConsumersInv(r, claims, cons) && c < |cons| && cons[c].Claimed?
    requires cons[c].idx == r.iHp && HandBackStep(r, cons[c], r')
    requires pc' == Resting || pc' == LoadPublished
    ensures r.iHp < r.iTp && r' == r.(hp := Hi(r.log[r.iHp]), iHp := r.iHp + 1)
    ensures ConsumersInv(r', claims, cons[c := pc'])
  {
    var cons' := cons[c := pc'];
    assert ConsumerOK(r, claims, c, cons[c]);
    forall i | 0 <= i < |cons'|
      ensures ConsumerOK(r', claims, i, cons'[i])
    {
      assert ConsumerOK(r, claims, i, cons[i]);
    }
    forall i | r'.iHp <= i < |claims|
      ensures HoldsClaim(cons', claims[i], i)
    {
      assert HoldsClaim(cons, claims[i], i);
    }
  }

  lemma HandBackFacts(r: Ring, claims: seq<nat>, cons: seq<Consumer>, c: nat, r': Ring, pc': Consumer, e: Event)
    requires RingInv(r) && ConsumersInv(r, claims, cons) && c < |cons|
    requires cons[c].Claimed? && !pc'.Claimed? && ConsumerStep(r, claims, c, cons[c], r', claims, pc', e)
    ensures r.iHp < r.iTp && r' == r.(hp := Hi(r.log[r.iHp]), iHp := r.iHp + 1)
    ensures ConsumersInv(r', claims, cons[c := pc'])
    ensures FifoStep(Queue(r), e, Queue(r'))
  {
    assert ConsumerOK(r, claims, c, cons[c]);
    HandBackIsNext(r, claims, c, cons[c], r', pc', e);
    HandBackKeeps(r, claims, cons, c, r', pc');
    AdvanceHead(r);
  }

  // ---- A consumer step, as producers and consumers see it --------------------------------------

  lemma HandBackMove(r: Ring, prods: seq<Producer>, claims: seq<nat>, cons: seq<Consumer>, c: nat,
                     r': Ring, pc': Consumer, e: Event)
    requires WriterInv(r, prods) && ConsumersInv(r, claims, cons) && c < |cons|
    requires ConsumerStep(r, claims, c, cons[c], r', claims, pc', e) && cons[c].Claimed? && !pc'.Claimed?
    ensures WriterInv(r', prods) && ConsumersInv(r', claims, cons[c := pc'])
    ensures FifoStep(Queue(r), e, Queue(r'))
  {
    HandBackFacts(r, claims, cons, c, r', pc', e);
    HandBackKeepsWriter(r, prods);
  }

  lemma ClaimMove(r: Ring, prods: seq<Producer>, claims: seq<nat>, cons: seq<Consumer>, c: nat,
                  r': Ring, claims': seq<nat>, pc': Consumer, e: Event)
    requires WriterInv(r, prods) && ConsumersInv(r, claims, cons) && c < |cons|
    requires ConsumerStep(r, claims, c, cons[c], r', claims', pc', e) && !cons[c].Claimed? && pc'.Claimed?
    ensures WriterInv(r', prods) && ConsumersInv(r', claims', cons[c := pc'])
    ensures FifoStep(Queue(r), e, Queue(r'))
  {
    ClaimKeeps(r, claims, cons, c, r', claims', pc', e);
    assert r' == r.(hr := r'.hr);
    ClaimKeepsWriter(r, prods, r'.hr);
  }

  lemma QuietMove(r: Ring, prods: seq<Producer>, claims: seq<nat>, cons: seq<Consumer>, c: nat, pc': Consumer, e: Event)
    requires WriterInv(r, prods) && ConsumersInv(r, claims, cons) && c < |cons| && !Stale(r, cons[c])
    requires ConsumerStep(r, claims, c, cons[c], r, claims, pc', e) && (cons[c].Claimed? <==> pc'.Claimed?)
    ensures ConsumersInv(r, claims, cons[c := pc'])
  {
    WriterFacts(r, prods);
    QuietKeeps(r, claims, cons, c, pc', e);
  }

  /** Every fresh step of every consumer keeps both invariants and is a step of the queue. */
  lemma ConsumerKeeps(r: Ring, prods: seq<Producer>, claims: seq<nat>, cons: seq<Consumer>, c: nat,
                      r': Ring, claims': seq<nat>, pc': Consumer, e: Event)
    requires WriterInv(r, prods) && ConsumersInv(r, claims, cons) && c < |cons| && !Stale(r, cons[c])
    requires ConsumerStep(r, claims, c, cons[c], r', claims', pc', e)
    ensures WriterInv(r', prods) && ConsumersInv(r', claims', cons[c := pc'])
    ensures FifoStep(Queue(r), e, Queue(r'))
  {
    WriterFacts(r, prods);
    hide RingInv, WriterInv, ConsumersInv, ConsumerStep, Stale, LogOK;
    ConsumerKinds(r, claims, c, cons[c], r', claims', pc', e);
    if cons[c].Claimed? && !pc'.Claimed? {
      HandBackMove(r, prods, claims, cons, c, r', pc', e);
    } else if !cons[c].Claimed? && pc'.Claimed? {
      ClaimMove(r, prods, claims, cons, c, r', claims', pc', e);
    } else {
      QuietMove(r, prods, claims, cons, c, pc', e);
    }
  }

  /** Only hand-backs, claims and quiet steps exist. */
  lemma ConsumerKinds(r: Ring, claims: seq<nat>, c: nat, pc: Consumer,
                      r': Ring, claims': seq<nat>, pc': Consumer, e: Event)
    requires 0 < r.cap == |r.mem|
    requires ConsumerStep(r, claims, c, pc, r', claims', pc', e)
    ensures r'.log == r.log && r'.iTp == r.iTp && r'.mem == r.mem && r'.cap == r.cap && r'.tp == r.tp && !e.Push?
    ensures pc.Claimed? ==> claims' == claims
    ensures (pc.Claimed? <==> pc'.Claimed?) ==> r' == r && claims' == claims && e == Internal
    ensures !pc.Claimed? ==> r' == r.(hr := r'.hr) && e == Internal
    ensures pc'.LoadReserved? ==> r' == r && pc'.t == r.tp
  {}

  /** Consumers write nothing but their own two counters. */
  lemma ConsumerShape(r: Ring, claims: seq<nat>, cons: seq<Consumer>, c: nat,
                      r': Ring, claims': seq<nat>, pc': Consumer, e: Event)
    requires RingInv(r) && ConsumersInv(r, claims, cons) && c < |cons|
    requires ConsumerStep(r, claims, c, cons[c], r', claims', pc', e)
    ensures r' == r.(hr := r'.hr, hp := r'.hp, iHp := r'.iHp)
    ensures r.hp <= r'.hp && r.iHp <= r'.iHp && !e.Push?
    ensures pc'.LoadReserved? ==> r' == r && pc'.t == r.tp
  {
    assert 0 < r.cap == |r.mem|;
    hide RingInv, ConsumersInv, ConsumerStep;
    ConsumerKinds(r, claims, c, cons[c], r', claims', pc', e);
    if cons[c].Claimed? && !pc'.Claimed? {
      HandBackFacts(r, claims, cons, c, r', pc', e);
      AdvanceHead(r);
    }
  }
}
