/** Runs of the multi-producer single-consumer ring: any number of producers, one consumer with
    plain stores. What holds here holds of every run. */
module MpscSystem {
  import opened Arithmetic
  import opened RingLayout
  import opened FrameLog
  import opened FrameLogFacts
  import opened Fifo
  import opened RingWriter
  import opened RingWriterProofs
  import opened MpmcProofs
  import SC = SingleConsumer
  import SCP = SingleConsumerProofs

  datatype System = System(r: Ring, prods: seq<Producer>, popper: SC.Popper)

  datatype Actor = ByProducer(p: nat) | ByConsumer

  predicate Init(s: System) {
    && RingInit(s.r)
    && (forall p :: 0 <= p < |s.prods| ==> s.prods[p] == Idle)
    && s.popper == SC.Resting
  }

  predicate Next(s: System, a: Actor, e: Event, s': System) {
    && 0 < s.r.cap == |s.r.mem| && s.r.iTp <= |s.r.log|
    && match a
       case ByProducer(p) =>
         && p < |s.prods| == |s'.prods|
         && ProducerStep(s.r, p, s.prods[p], s'.r, s'.prods[p], e)
         && s'.prods == s.prods[p := s'.prods[p]]
         && s'.popper == s.popper
       case ByConsumer =>
         && SC.PopperStep(SC.PublishFirst, s.r, s.popper, s'.r, s'.popper, e)
         && s'.prods == s.prods
  }

  predicate Inv(s: System) {
    match s
    case System(r, prods, popper) =>
      WriterInv(r, prods) && SC.PopperOK(SC.PublishFirst, r, popper)
  }

  predicate Run(ss: seq<System>, actors: seq<Actor>, es: seq<Event>) {
    && |ss| == |actors| + 1 == |es| + 1
    && Init(ss[0])
    && forall i :: 0 <= i < |es| ==> Next(ss[i], actors[i], es[i], ss[i + 1])
  }

  lemma InitInv(s: System)
    requires Init(s)
    ensures Inv(s) && Queue(s.r) == []
  {}

  lemma ProducerMove(s: System, p: nat, e: Event, s': System)
    requires Inv(s) && Next(s, ByProducer(p), e, s')
    ensures Inv(s')
    ensures FifoStep(Queue(s.r), e, Queue(s'.r))
  {
    ProducerKeeps(s.r, s.prods, p, s'.r, s'.prods[p], e);
    ProducerFifo(s.r, s.prods, p, s'.r, s'.prods[p], e);
    WriterFacts(s.r, s.prods);
    hide WriterInv, ProducerStep, SC.PopperOK, RingInv, LogOK;
    SCP.GrowthKeepsPopper(SC.PublishFirst, s.r, s.popper, s'.r);
  }

  predicate HeadMove(r: Ring, r': Ring) {
    || r' == r.(hr := r'.hr)
    || (r.iHp < r.iTp <= |r.log| && r' == r.(hp := Hi(r.log[r.iHp]), iHp := r.iHp + 1))
  }

  lemma HeadMoveKeepsWriter(r: Ring, prods: seq<Producer>, r': Ring)
    requires WriterInv(r, prods) && HeadMove(r, r')
    ensures WriterInv(r', prods)
  {
    hide WriterInv;
    if r' == r.(hr := r'.hr) {
      ClaimKeepsWriter(r, prods, r'.hr);
    } else {
      HandBackKeepsWriter(r, prods);
    }
  }

  lemma PopperMove(r: Ring, prods: seq<Producer>, pc: SC.Popper, r': Ring, pc': SC.Popper, e: Event)
    requires WriterInv(r, prods) && SC.PopperOK(SC.PublishFirst, r, pc)
    requires SC.PopperStep(SC.PublishFirst, r, pc, r', pc', e)
    ensures WriterInv(r', prods) && SC.PopperOK(SC.PublishFirst, r', pc')
    ensures FifoStep(Queue(r), e, Queue(r'))
  {
    WriterFacts(r, prods);
    hide WriterInv, SC.PopperOK, SC.PopperStep, RingInv, LogOK, FifoStep;
    SCP.PopperKeeps(SC.PublishFirst, r, pc, r', pc', e);
    HeadMoveKeepsWriter(r, prods, r');
  }

  /** Every step of every thread keeps the invariant and is a step of the queue. */
  lemma StepKeeps(s: System, a: Actor, e: Event, s': System)
    requires Inv(s) && Next(s, a, e, s')
    ensures Inv(s') && s.r.iTp <= |s.r.log| && s'.r.iTp <= |s'.r.log|
    ensures FifoStep(Queue(s.r), e, Queue(s'.r))
  {
    match a
    case ByProducer(p) => ProducerMove(s, p, e, s');
    case ByConsumer => PopperMove(s.r, s.prods, s.popper, s'.r, s'.popper, e);
  }

  /** Every run refines a queue of messages: a push takes effect at the store to `tail_publish`, a
      pop at the store to `head_publish`; nothing is lost, duplicated, reordered or altered. */
  lemma {:induction false} RunRefinesFifo(ss: seq<System>, actors: seq<Actor>, es: seq<Event>, n: nat)
    requires Run(ss, actors, es) && n < |ss|
    ensures Inv(ss[n])
    ensures Pushes(es[..n]) == Pops(es[..n]) + Queue(ss[n].r)
  {
    hide Next, FifoStep, Inv, Init, Messages;
    if n == 0 {
      InitInv(ss[0]);
    } else {
      var m := n - 1;
      RunRefinesFifo(ss, actors, es, m);
      assert Next(ss[m], actors[m], es[m], ss[m + 1]);
      StepKeeps(ss[m], actors[m], es[m], ss[n]);
      StepConserves(es[..m], Queue(ss[m].r), es[m], Queue(ss[n].r));
      assert es[..m] + [es[m]] == es[..n];
    }
  }

  /** The consumer's two size-check returns are unreachable, and it skips at most one frame a call. */
  lemma EarlyReturnsUnreachable(s: System)
    requires Inv(s)
    ensures s.popper.SawSize? ==> RecordSize(s.popper.size) <= s.r.cap - Pos(s.popper.h, s.r.cap)
    ensures s.popper.SawSize? ==> s.popper.h <= s.popper.t && RecordSize(s.popper.size) <= s.popper.t - s.popper.h
    ensures s.popper.LoadTail? || s.popper.LoadHead? || s.popper.Inspect? || s.popper.SawFlags? ==> s.popper.skips <= 1
  {
    SCP.SkipsAtMostOnce(SC.PublishFirst, s.r, s.popper);
    if s.popper.SawSize? {
      SCP.SizeChecksPass(SC.PublishFirst, s.r, s.popper);
    }
  }

  /** Padding is published together with its record: after a skip the same call goes on, and the queue
      is not empty. */
  lemma RecordAfterSkip(s: System, e: Event, s': System)
    requires Inv(s) && Next(s, ByConsumer, e, s')
    requires s.popper.Advance? && s.popper.outcome.Skipped? && !s'.popper.Advance?
    ensures s'.popper == SC.LoadTail(1)
    ensures s'.r.iHp < s'.r.iTp <= |s'.r.log| && s'.r.log[s'.r.iHp].Rec? && Queue(s'.r) != []
  {
    SkipEnds(s.r, s.popper, s'.r, s'.popper, e);
    hide SC.PopperStep, SC.AdvanceStep, FifoStep;
    StepKeeps(s, ByConsumer, e, s');
    SkippedRecord(s');
  }

  lemma SkipEnds(r: Ring, pc: SC.Popper, r': Ring, pc': SC.Popper, e: Event)
    requires r.cap > 0 && SC.PopperOK(SC.PublishFirst, r, pc) && pc.Advance? && pc.outcome.Skipped? && !pc'.Advance?
    requires SC.AdvanceStep(SC.PublishFirst, r, pc, r', pc', e)
    ensures pc' == SC.LoadTail(1)
  {}

  /** The frame behind a skipped one is a published record. */
  lemma SkippedRecord(s: System)
    requires Inv(s) && s.popper == SC.LoadTail(1)
    ensures s.r.iHp < s.r.iTp <= |s.r.log| && s.r.log[s.r.iHp].Rec? && Queue(s.r) != []
  {
    SCP.RecordAfterPad(s.r, s.r.iHp);
    MessagesHead(s.r.log, s.r.iHp, s.r.iTp);
  }

  /** A call that ends without having delivered a message ends at its head load, and no record was
      published at its last load of the tail. */
  lemma FalseMeansEmpty(s: System, e: Event, s': System)
    requires Inv(s) && Next(s, ByConsumer, e, s')
    requires s'.popper == SC.Resting && !s.popper.Resting? && !(s.popper.Advance? && s.popper.outcome.Got?)
    ensures s.popper.LoadHead? && s.popper.nothing
  {
    SCP.FalseMeansEmpty(SC.PublishFirst, s.r, s.popper, s'.r, s'.popper, e);
  }
}
