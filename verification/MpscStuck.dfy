/** A ring that can stay empty for ever although producers keep trying. */
module MpscStuck {
  import opened Arithmetic
  import opened RingLayout
  import opened FrameLog
  import opened FrameLogFacts
  import opened Fifo
  import opened RingWriter
  import opened WriterProgress
  import opened PushFit
  import opened MpscSystem
  import SC = SingleConsumer
  import SCP = SingleConsumerProofs

  /** The producer is trying to push, and has not reserved yet. */
  predicate Asking(pc: Producer) {
    pc.LoadHead? || pc.LoadTail? || pc.Reserve?
  }

  /** A record of `n` payload bytes does not fit into the empty ring at offset `t`: its size `r` puts
      the position strictly between `cap - r` and `r`. */
  predicate StuckSize(cap: nat, t: nat, n: nat)
    requires cap > 0
  {
    cap - RecordSize(n) < Pos(t, cap) < RecordSize(n)
  }

  predicate AllStuck(r: Ring, prods: seq<Producer>)
    requires r.cap > 0
  {
    forall p :: 0 <= p < |prods| && Asking(prods[p]) ==> StuckSize(r.cap, r.tr, |prods[p].req.payload|)
  }

  /** Empty, and nothing reserved. */
  predicate Idling(r: Ring) {
    r.hp == r.tp == r.tr
  }

  /** No snapshot of head and tail, however stale, lets a stuck record through. */
  lemma NeverPlaced(cap: nat, h: nat, t: nat, n: nat)
    requires cap > 0 && h <= t && StuckSize(cap, t, n)
    ensures Place(cap, h, t, n).Refused?
  {
    EmptyFit(cap, t, n);
  }

  lemma StuckProducer(s: System, p: nat, e: Event, s': System)
    requires Inv(s) && Idling(s.r) && AllStuck(s.r, s.prods) && Next(s, ByProducer(p), e, s')
    ensures s'.r == s.r && e == Internal
  {
    var pc := s.prods[p];
    if pc.InFlight? {
      ReservationInside(s.r, s.prods, p);
    }
    assert ProducerOK(s.r, p, pc);
    if pc.Reserve? && pc.t == s.r.tr {
      NeverPlaced(s.r.cap, pc.h, pc.t, |pc.req.payload|);
    }
  }

  lemma NothingPublished(r: Ring)
    requires RingInv(r) && r.hp == r.tp
    ensures r.iHp == r.iTp && Queue(r) == []
  {
    if r.iHp < r.iTp {
      OffMono(r.cap, r.log, r.iHp, r.iHp + 1);
      OffMono(r.cap, r.log, r.iHp + 1, r.iTp);
    }
  }

  lemma StuckConsumer(s: System, e: Event, s': System)
    requires Inv(s) && Idling(s.r) && Next(s, ByConsumer, e, s')
    ensures s'.r == s.r.(hr := s'.r.hr) && e == Internal
  {
    NothingPublished(s.r);
    hide RingInv, SC.PopperOK, AllProducers, Owned;
    SCP.PopperKeeps(SC.PublishFirst, s.r, s.popper, s'.r, s'.popper, e);
    assert !e.Push?;
  }

  /** Steps of the ring from any state. */
  predicate Continues(ss: seq<System>, actors: seq<Actor>, es: seq<Event>) {
    && |ss| == |actors| + 1 == |es| + 1
    && forall i :: 0 <= i < |es| ==> Next(ss[i], actors[i], es[i], ss[i + 1])
  }

  /** From every reachable state in which the ring is empty and nothing is reserved, for any number of
      producers with snapshots of any age: as long as all they ask for are records of sizes that are
      stuck at this position, nothing is ever pushed and no byte and no counter but `head_reserve`
      changes. */
  lemma {:induction false} StuckForever(ss: seq<System>, actors: seq<Actor>, es: seq<Event>, n: nat)
    requires Continues(ss, actors, es) && Inv(ss[0]) && Idling(ss[0].r) && n < |ss|
    requires ss[0].r.cap > 0 && forall i :: 0 <= i < |ss| ==> AllStuck(ss[0].r, ss[i].prods)
    ensures Inv(ss[n]) && ss[n].r == ss[0].r.(hr := ss[n].r.hr)
    ensures forall i :: 0 <= i < n ==> es[i] == Internal
  {
    hide Next, Inv, AllStuck;
    if n > 0 {
      var m := n - 1;
      StuckForever(ss, actors, es, m);
      assert Next(ss[m], actors[m], es[m], ss[m + 1]);
      assert AllStuck(ss[0].r, ss[m].prods);
      StuckStep(ss[0].r, ss[m], actors[m], es[m], ss[n]);
    }
  }

  lemma StuckStep(r: Ring, s: System, a: Actor, e: Event, s': System)
    requires Inv(s) && s.r == r.(hr := s.r.hr) && Idling(r) && r.cap > 0 && AllStuck(r, s.prods) && Next(s, a, e, s')
    ensures Inv(s') && s'.r == r.(hr := s'.r.hr) && e == Internal
  {
    assert AllStuck(s.r, s.prods);
    hide Inv, Next, AllStuck, FifoStep;
    StepKeeps(s, a, e, s');
    match a
    case ByProducer(p) => StuckProducer(s, p, e, s');
    case ByConsumer => StuckConsumer(s, e, s');
  }
}
