/** What every run of the multi-producer multi-consumer ring guarantees. */
module MpmcTheorems {
  import opened Arithmetic
  import opened RingLayout
  import opened FrameLog
  import opened FrameLogFacts
  import opened Fifo
  import opened RingWriter
  import opened RingWriterProofs
  import WA = WriterAnswers
  import opened MpmcRing
  import opened MpmcProofs
  import opened MpmcSystem

  // ---- Monotone counters and `approx_size` -------------------------------------------------------

  lemma StepMonotone(s: System, a: Actor, e: Event, s': System)
    requires Inv(s) && Next(s, a, e, s')
    ensures s'.r.cap == s.r.cap && s.r.hp <= s'.r.hp && s.r.iHp <= s'.r.iHp
  {
    match a
    case ByProducer(p) => ProducerFifo(s.r, s.prods, p, s'.r, s'.prods[p], e);
    case ByConsumer(c) => ConsumerShape(s.r, s.claims, s.cons, c, s'.r, s'.claims, s'.cons[c], e);
  }

  lemma {:induction false} RunMonotone(ss: seq<System>, actors: seq<Actor>, es: seq<Event>, i: nat, j: nat)
    requires Run(ss, actors, es) && FreshRun(ss, actors) && i <= j < |ss|
    ensures ss[j].r.cap == ss[i].r.cap && ss[i].r.hp <= ss[j].r.hp && ss[i].r.iHp <= ss[j].r.iHp
    decreases j
  {
    hide Next, Inv, Init;
    if i < j {
      RunMonotone(ss, actors, es, i, j - 1);
      RunSafe(ss, actors, es, j - 1);
      assert Next(ss[j - 1], actors[j - 1], es[j - 1], ss[j - 1 + 1]);
      StepMonotone(ss[j - 1], actors[j - 1], es[j - 1], ss[j]);
    }
  }

  /** Whoever calls it and whenever the two loads happen, `approx_size` does not wrap around: it is the
      distance between the two counters it loaded, cut off at the capacity. So it is at least the
      bytes in the ring at its second load, and exactly those if the head did not move in between. */
  lemma ApproxSizeBounds(ss: seq<System>, actors: seq<Actor>, es: seq<Event>, i: nat, j: nat)
    requires Run(ss, actors, es) && FreshRun(ss, actors) && i <= j < |ss|
    ensures ss[i].r.hp <= ss[j].r.tp
    ensures var size, used, held := ApproxSize(ss[j].r.cap, ss[i].r.hp, ss[j].r.tp), ss[j].r.tp - ss[i].r.hp, ss[j].r.tp - ss[j].r.hp;
      && size == (if used <= ss[j].r.cap then used else ss[j].r.cap)
      && held <= size <= ss[j].r.cap
      && (ss[i].r.hp == ss[j].r.hp ==> size == held)
  {
    RunMonotone(ss, actors, es, i, j);
    RunSafe(ss, actors, es, j);
    CountersOrdered(ss[j]);
  }

  // ---- Sequence numbers ---------------------------------------------------------------------------

  lemma PublishedStep(s: System, a: Actor, e: Event, s': System)
    requires Inv(s) && Next(s, a, e, s')
    ensures s'.r.iTp <= |s'.r.log|
    ensures Messages(s'.r.log, 0, s'.r.iTp) == Messages(s.r.log, 0, s.r.iTp) + (if e.Push? then [e.pushed] else [])
  {
    match a
    case ByProducer(p) => ProducerPublishes(s.r, s.prods, p, s'.r, s'.prods[p], e, 0);
    case ByConsumer(c) => ConsumerShape(s.r, s.claims, s.cons, c, s'.r, s'.claims, s'.cons[c], e);
  }

  lemma {:induction false} RunPublished(ss: seq<System>, actors: seq<Actor>, es: seq<Event>, n: nat)
    requires Run(ss, actors, es) && FreshRun(ss, actors) && n < |ss|
    ensures Inv(ss[n]) && Pushes(es[..n]) == Messages(ss[n].r.log, 0, ss[n].r.iTp)
  {
    hide Next, Fresh, WriterInv, ConsumersInv;
    RunSafe(ss, actors, es, n);
    if n > 0 {
      var m := n - 1;
      RunPublished(ss, actors, es, m);
      assert Next(ss[m], actors[m], es[m], ss[m + 1]);
      PublishedStep(ss[m], actors[m], es[m], ss[n]);
      assert es[..n][..m] == es[..m];
    }
  }

  /** For any interleaving of producers and consumers, the `k`-th message pushed, and therefore the
      `k`-th message popped, carries sequence number `k + 1`: no gap, no repetition. */
  lemma SequenceNumbers(ss: seq<System>, actors: seq<Actor>, es: seq<Event>, k: nat)
    requires Run(ss, actors, es) && FreshRun(ss, actors) && k < |Pushes(es)|
    ensures Pushes(es)[k].sequence == (k + 1) % TWO64
    ensures |Pops(es)| <= |Pushes(es)|
    ensures k < |Pops(es)| ==> Pops(es)[k] == Pushes(es)[k]
  {
    var n := |es|;
    assert es[..n] == es;
    RunPublished(ss, actors, es, n);
    RunSafe(ss, actors, es, n);
    MessagesNumbered(ss[n].r.log, ss[n].r.iTp);
  }

  // ---- Published bytes stay put ---------------------------------------------------------------------

  /** No step of any thread changes a byte of a published frame that is not handed back. */
  lemma PublishedStable(s: System, a: Actor, e: Event, s': System, i: nat)
    requires Inv(s) && Next(s, a, e, s') && s.r.iHp <= i < s.r.iTp
    ensures FrameSame(s.r, s'.r, i)
  {
    match a
    case ByProducer(p) => ProducerLeavesPublished(s.r, s.prods, p, s'.r, s'.prods[p], e, i);
    case ByConsumer(c) => ConsumerShape(s.r, s.claims, s.cons, c, s'.r, s'.claims, s'.cons[c], e);
  }

  lemma FrameSameTrans(r: Ring, r': Ring, r'': Ring, i: nat)
    requires FrameSame(r, r', i) && FrameSame(r', r'', i)
    ensures FrameSame(r, r'', i)
  {}

  /** The header and payload of a published frame, and so of a claimed one, stay unchanged until the
      store to `head_publish` that hands it back. */
  lemma {:induction false} FrozenUntilHandedBack(ss: seq<System>, actors: seq<Actor>, es: seq<Event>, m: nat, n: nat, i: nat)
    requires Run(ss, actors, es) && FreshRun(ss, actors) && m <= n < |ss|
    requires ss[m].r.iHp <= i < ss[m].r.iTp && ss[n].r.iHp <= i
    ensures FrameSame(ss[m].r, ss[n].r, i)
    decreases n
  {
    if m < n {
      var k := n - 1;
      RunMonotone(ss, actors, es, k, n);
      FrozenUntilHandedBack(ss, actors, es, m, k, i);
      RunSafe(ss, actors, es, k);
      assert Next(ss[k], actors[k], es[k], ss[k + 1]);
      PublishedStable(ss[k], actors[k], es[k], ss[n], i);
      FrameSameTrans(ss[m].r, ss[k].r, ss[n].r, i);
    } else {
      RunSafe(ss, actors, es, n);
    }
  }

  // ---- Claims -----------------------------------------------------------------------------------------

  /** Claims are only ever added, one frame at a time, in publication order. */
  lemma ClaimsGrow(s: System, a: Actor, e: Event, s': System)
    requires Inv(s) && Next(s, a, e, s')
    ensures s'.claims == s.claims || (a.ByConsumer? && s'.claims == s.claims + [a.c] && |s.claims| < s.r.iTp)
  {
    if a.ByConsumer? && s'.claims != s.claims {
      assert ConsumerOK(s.r, s.claims, a.c, s.cons[a.c]);
      ClaimTakesNext(s.r, s.claims, s.cons, a.c, s.cons[a.c], s'.r, s'.claims, s'.cons[a.c], e);
    }
  }

  /** A completed pop delivers the record at the head of the ring, to the one consumer that claimed
      it, with the type, payload and sequence number it was published with. */
  lemma PopDelivers(s: System, a: Actor, e: Event, s': System)
    requires Inv(s) && Next(s, a, e, s') && e.Pop?
    ensures a == ByConsumer(e.who) && s.r.iHp < |s.claims| <= |s.r.log| && s'.r.iHp == s.r.iHp + 1
    ensures s.r.log[s.r.iHp].Rec? && e.popped == MessageOf(s.r.log[s.r.iHp])
    ensures s.claims[s.r.iHp] == e.who
  {
    var c := a.c;
    assert ConsumerOK(s.r, s.claims, c, s.cons[c]);
    HandBackIsNext(s.r, s.claims, c, s.cons[c], s'.r, s'.cons[c], e);
  }

  // ---- One consumer never sees a stale tail -----------------------------------------------------------

  predicate SoloOK(s: System) {
    |s.cons| == 1 && (s.cons[0].LoadReserved? ==> s.r.hr <= s.cons[0].t)
  }

  lemma SoloStep(s: System, a: Actor, e: Event, s': System)
    requires Inv(s) && SoloOK(s) && Next(s, a, e, s')
    ensures Fresh(s, a) && SoloOK(s')
  {
    hide RingInv, AllConsumers, AllProducers, Owned, ProducerStep;
    match a
    case ByProducer(p) => ProducerFifo(s.r, s.prods, p, s'.r, s'.prods[p], e);
    case ByConsumer(c) =>
      CountersOrdered(s);
      ConsumerShape(s.r, s.claims, s.cons, c, s'.r, s'.claims, s'.cons[c], e);
  }

  lemma {:induction false} SoloSafe(ss: seq<System>, actors: seq<Actor>, es: seq<Event>, n: nat)
    requires Run(ss, actors, es) && |ss[0].cons| == 1 && n < |ss|
    ensures Inv(ss[n]) && SoloOK(ss[n])
  {
    if n == 0 {
      InitInv(ss[0]);
    } else {
      SoloSafe(ss, actors, es, n - 1);
      assert Next(ss[n - 1], actors[n - 1], es[n - 1], ss[n - 1 + 1]);
      SoloStep(ss[n - 1], actors[n - 1], es[n - 1], ss[n]);
      StepKeeps(ss[n - 1], actors[n - 1], es[n - 1], ss[n]);
    }
  }

  /** With one consumer and any number of producers every run is fresh, so all of the above holds
      of it without any assumption. */
  lemma OneConsumerFresh(ss: seq<System>, actors: seq<Actor>, es: seq<Event>)
    requires Run(ss, actors, es) && |ss[0].cons| == 1
    ensures FreshRun(ss, actors)
  {
    forall i | 0 <= i < |actors|
      ensures Fresh(ss[i], actors[i])
    {
      SoloSafe(ss, actors, es, i);
      assert Next(ss[i], actors[i], es[i], ss[i + 1]);
      SoloStep(ss[i], actors[i], es[i], ss[i + 1]);
    }
  }

  // ---- What `try_push` answers --------------------------------------------------------------------------

  /** Step `n` ends the call of producer `p` without a push: `try_push` returns false. */
  predicate RefusesAt(ss: seq<System>, actors: seq<Actor>, es: seq<Event>, n: nat, p: nat) {
    && |ss| == |actors| + 1 == |es| + 1 && n < |es| && actors[n] == ByProducer(p)
    && p < |ss[n].prods| && p < |ss[n + 1].prods|
    && ss[n].prods[p] != Idle && ss[n + 1].prods[p] == Idle && !es[n].Push?
  }

  /** Step `i` is a load of `head_publish` by producer `p`. */
  predicate HeadLoad(ss: seq<System>, i: nat, p: nat, q: Request, h: nat) {
    && i + 1 < |ss| && p < |ss[i].prods| && p < |ss[i + 1].prods|
    && ss[i].prods[p] == LoadHead(q) && ss[i].r.hp == h && ss[i + 1].prods[p] == LoadTail(q, h)
  }

  /** Step `j` is a load of `tail_reserve` by producer `p`. */
  predicate TailLoad(ss: seq<System>, j: nat, p: nat, q: Request, h: nat, t: nat) {
    && j + 1 < |ss| && p < |ss[j].prods| && p < |ss[j + 1].prods|
    && ss[j].prods[p] == LoadTail(q, h) && ss[j].r.tr == t && ss[j + 1].prods[p] == Reserve(q, h, t)
  }

  lemma {:induction false} SameProducers(ss: seq<System>, actors: seq<Actor>, es: seq<Event>, n: nat)
    requires Run(ss, actors, es) && n < |ss|
    ensures |ss[n].prods| == |ss[0].prods|
  {
    if n > 0 {
      SameProducers(ss, actors, es, n - 1);
      assert Next(ss[n - 1], actors[n - 1], es[n - 1], ss[n - 1 + 1]);
    }
  }

  lemma ProducerTrace(ss: seq<System>, actors: seq<Actor>, es: seq<Event>, p: nat) returns (rs: seq<Ring>, pcs: seq<Producer>)
    requires Run(ss, actors, es) && p < |ss[0].prods|
    ensures WA.Trace(p, rs, pcs, es) && |rs| == |ss|
    ensures forall i :: 0 <= i < |ss| ==> rs[i] == ss[i].r && p < |ss[i].prods| && pcs[i] == ss[i].prods[p]
  {
    forall i | 0 <= i < |ss| ensures p < |ss[i].prods| {
      SameProducers(ss, actors, es, i);
    }
    rs := seq(|ss|, i requires 0 <= i < |ss| => ss[i].r);
    pcs := seq(|ss|, i requires 0 <= i < |ss| && p < |ss[i].prods| => ss[i].prods[p]);
    forall i | 0 <= i < |es|
      ensures WA.Moves(p, rs[i], pcs[i], rs[i + 1], pcs[i + 1], es[i]) || pcs[i + 1] == pcs[i]
    {
      assert Next(ss[i], actors[i], es[i], ss[i + 1]);
    }
  }

  /** In every fresh run, `try_push` returns false only at its reservation, and only if there was no room
      for its record between the values that `head_publish` and `tail_reserve` had at its two loads. */
  lemma RefusedMeans(ss: seq<System>, actors: seq<Actor>, es: seq<Event>, n: nat, p: nat) returns (i: nat, j: nat)
    requires Run(ss, actors, es) && FreshRun(ss, actors) && RefusesAt(ss, actors, es, n, p)
    ensures i < j < n && ss[n].prods[p].Reserve? && ss[n].r.cap > 0
    ensures var q, h, t := ss[n].prods[p].req, ss[n].prods[p].h, ss[n].prods[p].t;
      && HeadLoad(ss, i, p, q, h) && TailLoad(ss, j, p, q, h, t)
      && h <= t && WA.NoRoom(ss[n].r.cap, h, t, |q.payload|)
  {
    RunSafe(ss, actors, es, n);
    assert Next(ss[n], actors[n], es[n], ss[n + 1]);
    assert ProducerOK(ss[n].r, p, ss[n].prods[p]);
    WA.CallStep(ss[n].r, p, ss[n].prods[p], ss[n + 1].r, ss[n + 1].prods[p], es[n]);
    SameProducers(ss, actors, es, n);
    hide Next, Inv, ProducerStep, ProducerOK, WA.NoRoom;
    var rs, pcs := ProducerTrace(ss, actors, es, p);
    i, j := WA.Snapshots(p, rs, pcs, es, n);
  }
}
