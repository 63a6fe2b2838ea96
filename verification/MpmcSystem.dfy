/** Runs of the multi-producer multi-consumer ring, and what holds of every run in which no
    consumer loads `head_reserve` behind a stale load of `tail_publish`. */
module MpmcSystem {
  import opened FrameLog
  import opened Fifo
  import opened RingWriter
  import opened MpmcRing
  import opened FrameLogFacts
  import opened RingWriterProofs
  import opened MpmcProofs

  datatype System = System(r: Ring, prods: seq<Producer>, claims: seq<nat>, cons: seq<Consumer>)

  datatype Actor = ByProducer(p: nat) | ByConsumer(c: nat)

  predicate Init(s: System) {
    && RingInit(s.r)
    && s.claims == []
    && (forall p :: 0 <= p < |s.prods| ==> s.prods[p] == Idle)
    && (forall c :: 0 <= c < |s.cons| ==> s.cons[c] == Resting)
  }

  predicate Next(s: System, a: Actor, e: Event, s': System) {
    && 0 < s.r.cap == |s.r.mem|
    && match a
       case ByProducer(p) =>
         && p < |s.prods| == |s'.prods|
         && ProducerStep(s.r, p, s.prods[p], s'.r, s'.prods[p], e)
         && s'.prods == s.prods[p := s'.prods[p]]
         && s'.claims == s.claims && s'.cons == s.cons
       case ByConsumer(c) =>
         && c < |s.cons| == |s'.cons|
         && ConsumerStep(s.r, s.claims, c, s.cons[c], s'.r, s'.claims, s'.cons[c], e)
         && s'.cons == s.cons[c := s'.cons[c]]
         && s'.prods == s.prods
  }

  /** The step is not a head load that passes a stale tail snapshot on a fully claimed ring. */
  predicate Fresh(s: System, a: Actor) {
    a.ByConsumer? && a.c < |s.cons| ==> !Stale(s.r, s.cons[a.c])
  }

  predicate Inv(s: System) {
    match s
    case System(r, prods, claims, cons) =>
      WriterInv(r, prods) && ConsumersInv(r, claims, cons)
  }

  /** A run: states, who moved, and what became visible. */
  predicate Run(ss: seq<System>, actors: seq<Actor>, es: seq<Event>) {
    && |ss| == |actors| + 1 == |es| + 1
    && Init(ss[0])
    && forall i :: 0 <= i < |es| ==> Next(ss[i], actors[i], es[i], ss[i + 1])
  }

  predicate FreshRun(ss: seq<System>, actors: seq<Actor>) {
    |ss| == |actors| + 1 && forall i :: 0 <= i < |actors| ==> Fresh(ss[i], actors[i])
  }

  // ---- Safety ----------------------------------------------------------------------------

  lemma InitInv(s: System)
    requires Init(s)
    ensures Inv(s) && Queue(s.r) == []
  {}

  /** Every fresh step of every thread keeps the invariant and is a step of the queue. */
  lemma StepKeeps(s: System, a: Actor, e: Event, s': System)
    requires Inv(s) && Next(s, a, e, s') && Fresh(s, a)
    ensures Inv(s') && s.r.iTp <= |s.r.log| && s'.r.iTp <= |s'.r.log|
    ensures FifoStep(Queue(s.r), e, Queue(s'.r))
  {
    match a
    case ByConsumer(c) =>
      ConsumerKeeps(s.r, s.prods, s.claims, s.cons, c, s'.r, s'.claims, s'.cons[c], e);
    case ByProducer(p) =>
      ProducerKeeps(s.r, s.prods, p, s'.r, s'.prods[p], e);
      ProducerFifo(s.r, s.prods, p, s'.r, s'.prods[p], e);
      WriterKeepsConsumers(s.r, s.claims, s.cons, s'.r);
  }

  /** Every state of a fresh run satisfies the invariant; and nothing is lost, duplicated,
      reordered or altered: what was pushed is what was popped, in order, followed by what is
      still queued. */
  lemma {:induction false} RunSafe(ss: seq<System>, actors: seq<Actor>, es: seq<Event>, n: nat)
    requires Run(ss, actors, es) && FreshRun(ss, actors) && n < |ss|
    ensures Inv(ss[n])
    ensures Pushes(es[..n]) == Pops(es[..n]) + Queue(ss[n].r)
  {
    hide Next, Fresh, FifoStep, Inv, Init, Messages;
    if n == 0 {
      InitInv(ss[0]);
    } else {
      var m := n - 1;
      RunSafe(ss, actors, es, m);
      assert Next(ss[m], actors[m], es[m], ss[m + 1]) && Fresh(ss[m], actors[m]);
      StepKeeps(ss[m], actors[m], es[m], ss[n]);
      StepConserves(es[..m], Queue(ss[m].r), es[m], Queue(ss[n].r));
      assert es[..m] + [es[m]] == es[..n];
    }
  }

  /** The counters are ordered, and never more than one capacity apart. */
  lemma CountersOrdered(s: System)
    requires Inv(s)
    ensures s.r.hp <= s.r.hr <= s.r.tp <= s.r.tr <= s.r.hp + s.r.cap
  {
    var r := s.r;
    OffMono(r.cap, r.log, r.iHp, |s.claims|);
    OffMono(r.cap, r.log, |s.claims|, r.iTp);
    OffMono(r.cap, r.log, r.iTp, |r.log|);
  }
}
