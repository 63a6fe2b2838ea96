/** Runs of the single-producer single-consumer byte ring in which the producer may die after any
    step and be replaced, any number of times. */
module SpscSystem {
  import opened Arithmetic
  import opened RingLayout
  import opened FrameLog
  import opened FrameLogFacts
  import opened Fifo
  import opened RingDecode
  import opened SpscRing
  import opened SpscProofs
  import SC = SingleConsumer
  import SCP = SingleConsumerProofs

  datatype System = System(r: Ring, pusher: Pusher, popper: SC.Popper)

  datatype Actor = ByProducer | ByConsumer | Crash

  predicate Init(s: System) {
    RingInit(s.r) && s.pusher == Idle && s.popper == SC.Resting
  }

  predicate Next(s: System, a: Actor, e: Event, s': System) {
    && 0 < s.r.cap == |s.r.mem| && s.r.iTp <= |s.r.log|
    && match a
       case ByProducer => PusherStep(s.r, s.pusher, s'.r, s'.pusher, e) && s'.popper == s.popper
       case ByConsumer =>
         SC.PopperStep(SC.ReserveFirst, s.r, s.popper, s'.r, s'.popper, e) && s'.pusher == s.pusher
       case Crash => CrashStep(s.r, s'.r, s'.pusher, e) && s'.popper == s.popper
  }

  predicate Inv(s: System) {
    match s
    case System(r, pusher, popper) =>
      WriterInv(r, pusher) && SC.PopperOK(SC.ReserveFirst, r, popper)
  }

  predicate Run(ss: seq<System>, actors: seq<Actor>, es: seq<Event>) {
    && |ss| == |actors| + 1 == |es| + 1
    && Init(ss[0])
    && forall i :: 0 <= i < |es| ==> Next(ss[i], actors[i], es[i], ss[i + 1])
  }

  lemma WriterFacts(r: Ring, pc: Pusher)
    requires WriterInv(r, pc)
    ensures RingInv(r) && 0 < r.cap == |r.mem| && r.iHp <= r.iTp == |r.log|
  {}

  lemma PusherMove(r: Ring, pc: Pusher, popper: SC.Popper, r': Ring, pc': Pusher, e: Event)
    requires WriterInv(r, pc) && SC.PopperOK(SC.ReserveFirst, r, popper) && PusherStep(r, pc, r', pc', e)
    ensures WriterInv(r', pc') && SC.PopperOK(SC.ReserveFirst, r', popper)
    ensures FifoStep(Queue(r), e, Queue(r'))
  {
    WriterFacts(r, pc);
    PusherKeeps(r, pc, r', pc', e);
    WriterFacts(r', pc');
    hide RingInv, WriterInv, PusherStep, SC.PopperOK;
    SCP.GrowthKeepsPopper(SC.ReserveFirst, r, popper, r');
  }

  lemma PopperMove(r: Ring, pc: Pusher, popper: SC.Popper, r': Ring, popper': SC.Popper, e: Event)
    requires WriterInv(r, pc) && SC.PopperOK(SC.ReserveFirst, r, popper)
    requires 0 < r.cap == |r.mem| && r.iTp <= |r.log| && SC.PopperStep(SC.ReserveFirst, r, popper, r', popper', e)
    ensures WriterInv(r', pc) && SC.PopperOK(SC.ReserveFirst, r', popper')
    ensures FifoStep(Queue(r), e, Queue(r'))
  {
    WriterFacts(r, pc);
    hide RingInv, WriterInv, SC.PopperOK, SC.PopperStep, FifoStep;
    SCP.PopperKeeps(SC.ReserveFirst, r, popper, r', popper', e);
    HeadMoveKeepsWriter(r, pc, r');
  }

  /** Every step of either side, and every crash, keeps the invariant and is a step of the queue. */
  lemma StepKeeps(s: System, a: Actor, e: Event, s': System)
    requires Inv(s) && Next(s, a, e, s')
    ensures Inv(s') && s.r.iTp <= |s.r.log| && s'.r.iTp <= |s'.r.log|
    ensures FifoStep(Queue(s.r), e, Queue(s'.r))
  {
    match a
    case ByProducer => PusherMove(s.r, s.pusher, s.popper, s'.r, s'.pusher, e);
    case ByConsumer => PopperMove(s.r, s.pusher, s.popper, s'.r, s'.popper, e);
    case Crash => CrashKeeps(s.r, s.pusher, s'.r, s'.pusher, e);
  }

  lemma InitInv(s: System)
    requires Init(s)
    ensures Inv(s) && Queue(s.r) == []
  {}

  /** However often the producer dies, the bytes between head and tail decode to exactly the messages
      whose store to `tail_publish` happened and which were not popped yet. */
  lemma {:induction false} RunSurvivesCrashes(ss: seq<System>, actors: seq<Actor>, es: seq<Event>, n: nat)
    requires Run(ss, actors, es) && n < |ss|
    ensures Inv(ss[n])
    ensures Pushes(es[..n]) == Pops(es[..n]) + Queue(ss[n].r)
    ensures Decode(ss[n].r.cap, ss[n].r.mem, ss[n].r.hp, ss[n].r.tp) == Parsed(Queue(ss[n].r))
  {
    hide Next, FifoStep, Decode, Inv, Init, Messages;
    if n == 0 {
      InitInv(ss[0]);
    } else {
      var m := n - 1;
      RunSurvivesCrashes(ss, actors, es, m);
      assert Next(ss[m], actors[m], es[m], ss[m + 1]);
      StepKeeps(ss[m], actors[m], es[m], ss[n]);
      InvRing(ss[m]);
      StepConserves(es[..m], Queue(ss[m].r), es[m], Queue(ss[n].r));
      assert es[..m] + [es[m]] == es[..n];
    }
    InvRing(ss[n]);
    DecodeQueue(ss[n].r);
  }

  /** A crash after any step of `try_push` followed by `claim`: the queue is what it was, the control
      block is consistent again, and the new producer is ready to push. */
  lemma ClaimAfterCrash(s: System, s1: System, s2: System, s3: System, e1: Event, e2: Event, e3: Event)
    requires Inv(s)
    requires Next(s, Crash, e1, s1) && s1.pusher == Claiming
    requires Next(s1, ByProducer, e2, s2) && Next(s2, ByProducer, e3, s3)
    ensures Inv(s3) && s3.pusher == Idle && s3.r == s.r.(tr := s.r.tp)
    ensures Queue(s3.r) == Queue(s.r)
    ensures Decode(s3.r.cap, s3.r.mem, s3.r.hp, s3.r.tp) == Parsed(Queue(s.r))
  {
    ClaimSteps(s.r, s1.r, s1.pusher, s2.r, s2.pusher, s3.r, s3.pusher, e1, e2, e3);
    hide PusherStep, CrashStep, Inv, Decode, FifoStep, Messages;
    StepKeeps(s, Crash, e1, s1);
    StepKeeps(s1, ByProducer, e2, s2);
    StepKeeps(s2, ByProducer, e3, s3);
    InvRing(s3);
    DecodeQueue(s3.r);
  }

  lemma InvRing(s: System)
    requires Inv(s)
    ensures RingInv(s.r) && s.r.iTp <= |s.r.log|
  {}

  lemma ClaimSteps(r: Ring, r1: Ring, pc1: Pusher, r2: Ring, pc2: Pusher, r3: Ring, pc3: Pusher, e1: Event, e2: Event, e3: Event)
    requires 0 < r.cap && r.iTp <= |r.log| && CrashStep(r, r1, pc1, e1) && pc1 == Claiming
    requires PusherStep(r, pc1, r2, pc2, e2) && r2.cap > 0 && PusherStep(r2, pc2, r3, pc3, e3)
    ensures pc3 == Idle && r3 == r.(tr := r.tp) && Queue(r3) == Queue(r)
  {}

  // ---- Sequence numbers -----------------------------------------------------------------------------

  lemma PublishedStep(s: System, a: Actor, e: Event, s': System)
    requires Inv(s) && Next(s, a, e, s')
    ensures s'.r.iTp <= |s'.r.log|
    ensures Messages(s'.r.log, 0, s'.r.iTp) == Messages(s.r.log, 0, s.r.iTp) + (if e.Push? then [e.pushed] else [])
  {
    match a
    case ByProducer => PusherPublishes(s.r, s.pusher, s'.r, s'.pusher, e);
    case ByConsumer => SCP.PopperKeeps(SC.ReserveFirst, s.r, s.popper, s'.r, s'.popper, e);
    case Crash =>
  }

  lemma {:induction false} RunPublished(ss: seq<System>, actors: seq<Actor>, es: seq<Event>, n: nat)
    requires Run(ss, actors, es) && n < |ss|
    ensures Inv(ss[n]) && Pushes(es[..n]) == Messages(ss[n].r.log, 0, ss[n].r.iTp)
  {
    hide Next, WriterInv;
    RunSurvivesCrashes(ss, actors, es, n);
    if n > 0 {
      var m := n - 1;
      RunPublished(ss, actors, es, m);
      assert Next(ss[m], actors[m], es[m], ss[m + 1]);
      hide Next;
      PublishedStep(ss[m], actors[m], es[m], ss[n]);
      assert es[..n][..m] == es[..m];
    }
  }

  lemma {:induction false} MessagesIncrease(log: seq<Frame>, j: nat)
    requires IncreasingOrds(log) && j <= |log| && OrdAt(log, j) < TWO64
    ensures forall k :: 0 <= k < |Messages(log, 0, j)| ==> Messages(log, 0, j)[k].sequence <= OrdAt(log, j)
    ensures forall k, l :: 0 <= k < l < |Messages(log, 0, j)| ==> Messages(log, 0, j)[k].sequence < Messages(log, 0, j)[l].sequence
    decreases j
  {
    if j > 0 {
      assert log[j - 1].ord >= OrdAt(log, j - 1);
      MessagesIncrease(log, j - 1);
    }
  }

  /** Sequence numbers are strictly increasing over the whole run, crashes included; a crash may skip
      a number but never reuses one. */
  lemma SequenceIncreases(ss: seq<System>, actors: seq<Actor>, es: seq<Event>, k: nat, l: nat)
    requires Run(ss, actors, es) && ss[|es|].r.sq < TWO64 && k < l < |Pushes(es)|
    ensures Pushes(es)[k].sequence < Pushes(es)[l].sequence
  {
    assert es[..|es|] == es;
    RunPublished(ss, actors, es, |es|);
    MessagesIncrease(ss[|es|].r.log, ss[|es|].r.iTp);
  }

  // ---- The consumer, and `approx_size` ---------------------------------------------------------------

  /** The consumer's two size-check returns are unreachable, and it skips at most one frame a call. */
  lemma EarlyReturnsUnreachable(s: System)
    requires Inv(s)
    ensures s.popper.SawSize? ==> RecordSize(s.popper.size) <= s.r.cap - Pos(s.popper.h, s.r.cap)
    ensures s.popper.SawSize? ==> s.popper.h <= s.popper.t && RecordSize(s.popper.size) <= s.popper.t - s.popper.h
    ensures s.popper.LoadTail? || s.popper.LoadHead? || s.popper.Inspect? || s.popper.SawFlags? ==> s.popper.skips <= 1
  {
    SCP.SkipsAtMostOnce(SC.ReserveFirst, s.r, s.popper);
    if s.popper.SawSize? {
      SCP.SizeChecksPass(SC.ReserveFirst, s.r, s.popper);
    }
  }

  /** A call that ends without having delivered a message ends at its head load, and no record was
      published at its last load of the tail. */
  lemma FalseMeansEmpty(s: System, e: Event, s': System)
    requires Inv(s) && Next(s, ByConsumer, e, s')
    requires s'.popper == SC.Resting && !s.popper.Resting? && !(s.popper.Advance? && s.popper.outcome.Got?)
    ensures s.popper.LoadHead? && s.popper.nothing
  {
    SCP.FalseMeansEmpty(SC.ReserveFirst, s.r, s.popper, s'.r, s'.popper, e);
  }

  lemma StepMonotone(s: System, a: Actor, e: Event, s': System)
    requires Inv(s) && Next(s, a, e, s')
    ensures s'.r.cap == s.r.cap && s.r.hp <= s'.r.hp
  {
    hide RingInv, PusherStep, SC.PopperStep, SC.PopperOK, FifoStep, PusherOK;
    match a
    case ByProducer => PusherKeeps(s.r, s.pusher, s'.r, s'.pusher, e);
    case ByConsumer =>
      SCP.PopperKeeps(SC.ReserveFirst, s.r, s.popper, s'.r, s'.popper, e);
      HeadOffset(s.r);
    case Crash =>
  }

  /** Head and tail bound the published bytes. */
  lemma HeadOffset(r: Ring)
    requires RingInv(r)
    ensures r.hp <= r.tp <= r.hp + r.cap && r.iTp <= |r.log|
    ensures r.iHp < r.iTp ==> r.hp < Hi(r.log[r.iHp])
  {
    OffMono(r.cap, r.log, r.iHp, r.iTp);
    OffMono(r.cap, r.log, r.iTp, |r.log|);
    if r.iHp < r.iTp {
      assert r.log[r.iHp].lo == Off(r.log, r.iHp);
    }
  }

  lemma {:induction false} RunMonotone(ss: seq<System>, actors: seq<Actor>, es: seq<Event>, i: nat, j: nat)
    requires Run(ss, actors, es) && i <= j < |ss|
    ensures Inv(ss[j]) && ss[j].r.cap == ss[i].r.cap && ss[i].r.hp <= ss[j].r.hp
    decreases j
  {
    RunSurvivesCrashes(ss, actors, es, j);
    if i < j {
      RunMonotone(ss, actors, es, i, j - 1);
      assert Next(ss[j - 1], actors[j - 1], es[j - 1], ss[j - 1 + 1]);
      hide Inv, Next;
      StepMonotone(ss[j - 1], actors[j - 1], es[j - 1], ss[j]);
    }
  }

  /** Whoever calls it and whenever the two loads happen, `approx_size` does not wrap around: it is the
      distance between the two counters it loaded, cut off at the capacity. So it is at least the
      bytes in the ring at its second load, and exactly those if the head did not move in between. */
  lemma ApproxSizeBounds(ss: seq<System>, actors: seq<Actor>, es: seq<Event>, i: nat, j: nat)
    requires Run(ss, actors, es) && i <= j < |ss|
    ensures ss[i].r.hp <= ss[j].r.tp
    ensures var size, used, held := ApproxSize(ss[j].r.cap, ss[i].r.hp, ss[j].r.tp), ss[j].r.tp - ss[i].r.hp, ss[j].r.tp - ss[j].r.hp;
      && size == (if used <= ss[j].r.cap then used else ss[j].r.cap)
      && held <= size <= ss[j].r.cap
      && (ss[i].r.hp == ss[j].r.hp ==> size == held)
  {
    RunMonotone(ss, actors, es, i, j);
    HeadOffset(ss[j].r);
  }

  // ---- What `try_push` answers --------------------------------------------------------------------------

  /** Between head `h` and tail `t` there is no room for the padding, if the gap before the boundary is
      too short for a header; or for the padding and the record, if the record does not fit before the
      boundary; or for the record. */
  predicate NoRoom(cap: nat, h: nat, t: nat, n: nat)
    requires cap > 0 && h <= t
  {
    var left, size := cap - t % cap, RecordSize(n);
    t - h + (if left < HEADER then left else if left < size then left + size else size) > cap
  }

  /** A step of a call: it keeps its request; a push carries it and ends the call; and the call ends
      without a push - `try_push` returns false - exactly at the decision, if there is no room between
      a head that was loaded in this turn, and has since only moved on, and the tail. */
  lemma RefusedMeans(s: System, e: Event, s': System)
    requires Inv(s) && Next(s, ByProducer, e, s')
    requires !s.pusher.Idle? && !s.pusher.Claiming? && !s.pusher.Claimed?
    ensures s'.pusher != Idle ==> !s'.pusher.Claiming? && !s'.pusher.Claimed? && s'.pusher.req == s.pusher.req
    ensures e.Push? ==> s'.pusher == Idle && e.pushed.typ == s.pusher.req.typ && e.pushed.payload == s.pusher.req.payload
    ensures s.pusher.Decide? ==> s.r.cap > 0 && s.pusher.h <= s.r.hp && s.pusher.h <= s.pusher.t == s.r.tp
    ensures s'.pusher == Idle && !e.Push? <==>
      s.pusher.Decide? && NoRoom(s.r.cap, s.pusher.h, s.pusher.t, |s.pusher.req.payload|)
  {
    if s.pusher.Decide? {
      PosIsMod(s.pusher.t, s.r.cap);
    }
    hide RingInv, IncreasingOrds, SC.PopperOK, SC.PopperStep, Pos, RecordSize, StageMem, RecordBytes;
  }
}
