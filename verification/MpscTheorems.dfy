/** Sequence numbers, counters and `approx_size` of the multi-producer single-consumer ring. */
module MpscTheorems {
  import opened Arithmetic
  import opened RingLayout
  import opened FrameLog
  import opened FrameLogFacts
  import opened Fifo
  import opened RingWriter
  import opened RingWriterProofs
  import WA = WriterAnswers
  import opened MpscSystem

  /** The counters never cross and never span more than the capacity. */
  lemma CountersOrdered(s: System)
    requires Inv(s)
    ensures s.r.hp <= s.r.tp <= s.r.tr <= s.r.hp + s.r.cap && s.r.iTp <= |s.r.log|
    ensures s.r.iHp < s.r.iTp ==> s.r.hp < Hi(s.r.log[s.r.iHp])
  {
    var r := s.r;
    OffMono(r.cap, r.log, r.iHp, r.iTp);
    OffMono(r.cap, r.log, r.iTp, |r.log|);
    if r.iHp < r.iTp {
      assert r.log[r.iHp].lo == Off(r.log, r.iHp);
    }
  }

  lemma ConsumerShape(s: System, e: Event, s': System)
    requires Inv(s) && Next(s, ByConsumer, e, s')
    ensures s'.r.log == s.r.log && s'.r.iTp == s.r.iTp && s'.r.cap == s.r.cap && !e.Push?
    ensures s.r.hp <= s'.r.hp
  {
    CountersOrdered(s);
    hide RingInv, LogOK, AllProducers, Owned, SC.PopperOK;
    SCP.PopperKeeps(SC.PublishFirst, s.r, s.popper, s'.r, s'.popper, e);
  }

  lemma StepMonotone(s: System, a: Actor, e: Event, s': System)
    requires Inv(s) && Next(s, a, e, s')
    ensures s'.r.cap == s.r.cap && s.r.hp <= s'.r.hp
  {
    match a
    case ByProducer(p) => ProducerFifo(s.r, s.prods, p, s'.r, s'.prods[p], e);
    case ByConsumer => ConsumerShape(s, e, s');
  }

  lemma {:induction false} RunMonotone(ss: seq<System>, actors: seq<Actor>, es: seq<Event>, i: nat, j: nat)
    requires Run(ss, actors, es) && i <= j < |ss|
    ensures Inv(ss[j]) && ss[j].r.cap == ss[i].r.cap && ss[i].r.hp <= ss[j].r.hp
    decreases j
  {
    RunRefinesFifo(ss, actors, es, j);
    if i < j {
      RunMonotone(ss, actors, es, i, j - 1);
      assert Next(ss[j - 1], actors[j - 1], es[j - 1], ss[j - 1 + 1]);
      hide Inv, Next;
      StepMonotone(ss[j - 1], actors[j - 1], es[j - 1], ss[j]);
    }
  }

  /** Whoever calls it and whenever the two loads happen, `approx_size` does not wrap around: it is the
      distance between the two counters it loaded, cut off at the capacity. So it is at least the
      bytes in the ring at its second load, and exactly those if the head did not move in between. */
  lemma ApproxSizeBounds(ss: seq<System>, actors: seq<Actor>, es: seq<Event>, i: nat, j: nat)
    requires Run(ss, actors, es) && i <= j < |ss|
    ensures ss[i].r.hp <= ss[j].r.tp
    ensures var size, used, held := ApproxSize(ss[j].r.cap, ss[i].r.hp, ss[j].r.tp), ss[j].r.tp - ss[i].r.hp, ss[j].r.tp - ss[j].r.hp;
      && size == (if used <= ss[j].r.cap then used else ss[j].r.cap)
      && held <= size <= ss[j].r.cap
      && (ss[i].r.hp == ss[j].r.hp ==> size == held)
  {
    RunMonotone(ss, actors, es, i, j);
    CountersOrdered(ss[j]);
  }

  lemma PublishedStep(s: System, a: Actor, e: Event, s': System)
    requires Inv(s) && Next(s, a, e, s')
    ensures s'.r.iTp <= |s'.r.log|
    ensures Messages(s'.r.log, 0, s'.r.iTp) == Messages(s.r.log, 0, s.r.iTp) + (if e.Push? then [e.pushed] else [])
  {
    match a
    case ByProducer(p) => ProducerPublishes(s.r, s.prods, p, s'.r, s'.prods[p], e, 0);
    case ByConsumer => ConsumerShape(s, e, s');
  }

  lemma {:induction false} RunPublished(ss: seq<System>, actors: seq<Actor>, es: seq<Event>, n: nat)
    requires Run(ss, actors, es) && n < |ss|
    ensures Inv(ss[n]) && Pushes(es[..n]) == Messages(ss[n].r.log, 0, ss[n].r.iTp)
  {
    hide Next, WriterInv;
    RunRefinesFifo(ss, actors, es, n);
    if n > 0 {
      var m := n - 1;
      RunPublished(ss, actors, es, m);
      assert Next(ss[m], actors[m], es[m], ss[m + 1]);
      hide Next;
      PublishedStep(ss[m], actors[m], es[m], ss[n]);
      assert es[..n][..m] == es[..m];
    }
  }

  /** For any interleaving of producers the `k`-th message pushed, and therefore the `k`-th message
      popped, carries sequence number `k + 1`: no gap, no repetition. */
  lemma SequenceNumbers(ss: seq<System>, actors: seq<Actor>, es: seq<Event>, k: nat)
    requires Run(ss, actors, es) && k < |Pushes(es)|
    ensures Pushes(es)[k].sequence == (k + 1) % TWO64
    ensures |Pops(es)| <= |Pushes(es)|
    ensures k < |Pops(es)| ==> Pops(es)[k] == Pushes(es)[k]
  {
    var n := |es|;
    assert es[..n] == es;
    RunPublished(ss, actors, es, n);
    RunRefinesFifo(ss, actors, es, n);
    MessagesNumbered(ss[n].r.log, ss[n].r.iTp);
  }

  // ---- What `try_push` answers --------------------------------------------------------------------------

  /** Step `n` ends the call of producer `p` without a push: `try_push` returns false. */
  predicate RefusesAt(ss: seq<System>, actors: seq<Actor>, es: seq<Event>, n: nat, p: nat) {
    && |ss| == |actors| + 1 == |es| + 1 && n < |es| && actors[n] == ByProducer(p)
    && p < |ss[n].prods| && p < |ss[n + 1].prods|
    && ss[n].prods[p] != Idle && ss[n + 1].prods[p] == Idle && !es[n].Push?
  }

  /** Step `i` is a load of `head_publish` by producer `p`. */
  predicate HeadLoad(ss: seq<System>, i: nat, p: nat, q: Request, h: nat) {
    && i + 1 < |ss| && p < |ss[i].prods| && p < |ss[i + 1].prods|
    && ss[i].prods[p] == LoadHead(q) && ss[i].r.hp == h && ss[i + 1].prods[p] == LoadTail(q, h)
  }

  /** Step `j` is a load of `tail_reserve` by producer `p`. */
  predicate TailLoad(ss: seq<System>, j: nat, p: nat, q: Request, h: nat, t: nat) {
    && j + 1 < |ss| && p < |ss[j].prods| && p < |ss[j + 1].prods|
    && ss[j].prods[p] == LoadTail(q, h) && ss[j].r.tr == t && ss[j + 1].prods[p] == Reserve(q, h, t)
  }

  lemma {:induction false} SameProducers(ss: seq<System>, actors: seq<Actor>, es: seq<Event>, n: nat)
    requires Run(ss, actors, es) && n < |ss|
    ensures |ss[n].prods| == |ss[0].prods|
  {
    if n > 0 {
      SameProducers(ss, actors, es, n - 1);
      assert Next(ss[n - 1], actors[n - 1], es[n - 1], ss[n - 1 + 1]);
    }
  }

  lemma ProducerTrace(ss: seq<System>, actors: seq<Actor>, es: seq<Event>, p: nat) returns (rs: seq<Ring>, pcs: seq<Producer>)
    requires Run(ss, actors, es) && p < |ss[0].prods|
    ensures WA.Trace(p, rs, pcs, es) && |rs| == |ss|
    ensures forall i :: 0 <= i < |ss| ==> rs[i] == ss[i].r && p < |ss[i].prods| && pcs[i] == ss[i].prods[p]
  {
    forall i | 0 <= i < |ss| ensures p < |ss[i].prods| {
      SameProducers(ss, actors, es, i);
    }
    rs := seq(|ss|, i requires 0 <= i < |ss| => ss[i].r);
    pcs := seq(|ss|, i requires 0 <= i < |ss| && p < |ss[i].prods| => ss[i].prods[p]);
    forall i | 0 <= i < |es|
      ensures WA.Moves(p, rs[i], pcs[i], rs[i + 1], pcs[i + 1], es[i]) || pcs[i + 1] == pcs[i]
    {
      assert Next(ss[i], actors[i], es[i], ss[i + 1]);
    }
  }

  /** In every run, `try_push` returns false only at its reservation, and only if there was no room
      for its record between the values that `head_publish` and `tail_reserve` had at its two loads. */
  lemma RefusedMeans(ss: seq<System>, actors: seq<Actor>, es: seq<Event>, n: nat, p: nat) returns (i: nat, j: nat)
    requires Run(ss, actors, es) && RefusesAt(ss, actors, es, n, p)
    ensures i < j < n && ss[n].prods[p].Reserve? && ss[n].r.cap > 0
    ensures var q, h, t := ss[n].prods[p].req, ss[n].prods[p].h, ss[n].prods[p].t;
      && HeadLoad(ss, i, p, q, h) && TailLoad(ss, j, p, q, h, t)
      && h <= t && WA.NoRoom(ss[n].r.cap, h, t, |q.payload|)
  {
    RunRefinesFifo(ss, actors, es, n);
    assert Next(ss[n], actors[n], es[n], ss[n + 1]);
    assert ProducerOK(ss[n].r, p, ss[n].prods[p]);
    WA.CallStep(ss[n].r, p, ss[n].prods[p], ss[n + 1].r, ss[n + 1].prods[p], es[n]);
    SameProducers(ss, actors, es, n);
    hide Next, Inv, ProducerStep, ProducerOK, WA.NoRoom;
    var rs, pcs := ProducerTrace(ss, actors, es, p);
    i, j := WA.Snapshots(p, rs, pcs, es, n);
  }
}
