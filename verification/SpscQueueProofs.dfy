/** `SPSCQueue` is a FIFO of at most `Capacity` items, across index wrap-around. */
module SpscQueueProofs {
  import opened Arithmetic
  import opened SpscQueue
  import opened RingLayout

  // ---- Index arithmetic ---------------------------------------------------------------------

  lemma {:induction false} Pow2Mono(a: nat, b: nat)
    requires a <= b
    ensures Pow2(a) <= Pow2(b)
  {
    if a < b { Pow2Mono(a, b - 1); }
  }

  /** Reducing modulo 2^64 first does not change the low `k` bits. */
  lemma ModMod(x: nat, d: nat, e: nat)
    requires d > 0 && e > 0
    ensures (x % (d * e)) % d == x % d
  {
    var r, q := x % (d * e), x / (d * e);
    DivModUnique(x, d, e * q + r / d, r % d) by {
      assert x == d * (e * q) + r;
      assert r == d * (r / d) + r % d;
    }
  }

  lemma LegalIsPow2(cap: nat) returns (k: nat)
    requires LegalCapacity(cap)
    ensures cap == Pow2(k) && k < 64
  {
    PowerOfTwoTest(cap);
    k :| cap == Pow2(k);
    WordSize();
    if k >= 64 {
      Pow2Mono(64, k);
      assert false;
    }
  }

  /** The masked stored index addresses the slot of the index that never wraps. */
  lemma MaskedSlot(i: nat, cap: nat)
    requires LegalCapacity(cap)
    ensures Slot(i % TWO64, cap) == Home(i, cap)
  {
    var k := LegalIsPow2(cap);
    MaskIsMod(i % TWO64, k);
    WordSize();
    Pow2Sum(k, 64 - k);
    ModMod(i, Pow2(k), Pow2(64 - k));
  }

  /** Two indices less than a capacity apart never share a slot. */
  lemma HomesDiffer(i: nat, j: nat, cap: nat)
    requires cap > 0 && i < j < i + cap
    ensures Home(i, cap) != Home(j, cap)
  {
    if i % cap == j % cap {
      DivModUnique(j - i, cap, j / cap - i / cap, 0);
      DivModUnique(j - i, cap, 0, j - i);
    }
  }

  /** Stored indices subtract to the true distance. */
  lemma TrueDistance(t: nat, h: nat)
    requires h <= t < h + TWO64
    ensures Diff64(t % TWO64, h % TWO64) == t - h
  {
  }

  lemma NextIndex(t: nat)
    ensures (t % TWO64 + 1) % TWO64 == (t + 1) % TWO64
  {
  }

  // ---- Steps ----------------------------------------------------------------------------------

  lemma PushTailKeeps(q: Queue, q': Queue)
    requires Inv(q) && PushStep(q, q') && q.prod.PushTail?
    ensures Inv(q')
    ensures q'.prod == PushIdle(true) <==> |Items(q)| == q.cap
  {
    TrueDistance(|q.pushed|, |q.popped|);
  }

  lemma PushWordKeeps(q: Queue, q': Queue)
    requires Inv(q) && PushStep(q, q') && q.prod.PushCopy? && q.prod.j < |q.prod.v|
    ensures Inv(q')
  {
    var i, v, j := Home(|q.pushed|, q.cap), q.prod.v, q.prod.j;
    MaskedSlot(|q.pushed|, q.cap);
    assert q'.slots[i][..j + 1] == v[..j + 1];
    forall a | |q.popped| <= a < |q.pushed| ensures q'.slots[Home(a, q.cap)] == q.pushed[a] {
      HomesDiffer(a, |q.pushed|, q.cap);
    }
  }

  lemma PublishKeeps(q: Queue, q': Queue)
    requires Inv(q) && PushStep(q, q') && q.prod.PushCopy? && q.prod.j >= |q.prod.v|
    ensures Inv(q') && Items(q') == Items(q) + [q.prod.v]
  {
    NextIndex(|q.pushed|);
    assert q.slots[Home(|q.pushed|, q.cap)] == q.prod.v;
  }

  lemma PopHeadKeeps(q: Queue, q': Queue)
    requires Inv(q) && PopStep(q, q') && q.cons.PopHead?
    ensures Inv(q')
    ensures q'.cons == PopIdle(true) <==> Items(q) == []
  {
    TrueDistance(|q.pushed|, |q.popped|);
  }

  lemma PopWordKeeps(q: Queue, q': Queue)
    requires Inv(q) && PopStep(q, q') && q.cons.PopCopy? && |q.cons.got| < q.words
    ensures Inv(q')
  {
    MaskedSlot(|q.popped|, q.cap);
    var item, got := q.pushed[|q.popped|], q.cons.got;
    assert q.slots[Home(|q.popped|, q.cap)] == item;
    assert got + [item[|got|]] <= item;
  }

  lemma ReleaseKeeps(q: Queue, q': Queue)
    requires Inv(q) && PopStep(q, q') && q.cons.PopCopy? && |q.cons.got| >= q.words
    ensures Inv(q') && Items(q) == [q.cons.got] + Items(q')
  {
    NextIndex(|q.popped|);
    assert q.cons.got == q.pushed[|q.popped|];
  }

  /** The visible effect of a step on the abstract queue. */
  predicate FifoStep(q: Queue, q': Queue)
    requires |q.popped| <= |q.pushed| && |q'.popped| <= |q'.pushed|
  {
    || (Items(q') == Items(q) && q'.pushed == q.pushed && q'.popped == q.popped)
    || (q.prod.PushCopy? && Items(q') == Items(q) + [q.prod.v] && q'.pushed == q.pushed + [q.prod.v] && q'.popped == q.popped)
    || (q.cons.PopCopy? && Items(q) == [q.cons.got] + Items(q') && q'.popped == q.popped + [q.cons.got] && q'.pushed == q.pushed)
  }

  lemma StepKeeps(q: Queue, actor: Actor, q': Queue)
    requires Inv(q) && Next(q, actor, q')
    ensures Inv(q') && q'.cap == q.cap && FifoStep(q, q')
  {
    match actor
    case ByProducer =>
      if q.prod.PushTail? {
        PushTailKeeps(q, q');
      } else if q.prod.PushCopy? {
        if q.prod.j < |q.prod.v| { PushWordKeeps(q, q'); } else { PublishKeeps(q, q'); }
      }
    case ByConsumer =>
      if q.cons.PopHead? {
        PopHeadKeeps(q, q');
      } else if q.cons.PopCopy? {
        if |q.cons.got| < q.words { PopWordKeeps(q, q'); } else { ReleaseKeeps(q, q'); }
      }
    case ProducerDies =>
    case ConsumerDies =>
  }

  // ---- Runs --------------------------------------------------------------------------------------

  lemma {:induction false} RunKeeps(qs: seq<Queue>, actors: seq<Actor>, i: nat)
    requires Run(qs, actors) && i < |qs|
    ensures Inv(qs[i]) && qs[i].cap == qs[0].cap
  {
    if i > 0 {
      RunKeeps(qs, actors, i - 1);
      StepKeeps(qs[i - 1], actors[i - 1], qs[i]);
    }
  }

  /** For every power-of-two capacity, every interleaving and every number of operations: what was
      popped, followed by what is queued, is what was pushed; and at most `Capacity` are queued. */
  lemma RunIsFifo(qs: seq<Queue>, actors: seq<Actor>, i: nat)
    requires Run(qs, actors) && i < |qs|
    ensures |qs[i].popped| <= |qs[i].pushed|
    ensures qs[i].pushed == qs[i].popped + Items(qs[i]) && |Items(qs[i])| <= qs[0].cap
    ensures i + 1 < |qs| ==> |qs[i + 1].popped| <= |qs[i + 1].pushed| && FifoStep(qs[i], qs[i + 1])
  {
    RunKeeps(qs, actors, i);
    if i + 1 < |qs| {
      StepKeeps(qs[i], actors[i], qs[i + 1]);
    }
  }

  /** A step of the producer inside its call ends it in failure exactly when the queue is full at the
      head load, and in success exactly when it pushes the call's item; likewise for the consumer, the
      tail load and an empty queue, and the item at the head. */
  lemma RefusalsExact(qs: seq<Queue>, actors: seq<Actor>, i: nat)
    requires Run(qs, actors) && i < |actors|
    ensures |qs[i].popped| <= |qs[i].pushed|
    ensures var q, q' := qs[i], qs[i + 1];
      actors[i].ByProducer? && !q.prod.PushIdle? ==>
        && (q'.prod == PushIdle(true) <==> q.prod.PushTail? && |Items(q)| == q.cap)
        && (q'.prod == PushIdle(false) <==> q'.pushed == q.pushed + [q.prod.v])
        && (q'.prod.PushIdle? || (q'.prod.v == q.prod.v && q'.pushed == q.pushed))
    ensures var q, q' := qs[i], qs[i + 1];
      actors[i].ByConsumer? && !q.cons.PopIdle? ==>
        && (q'.cons == PopIdle(true) <==> q.cons.PopHead? && Items(q) == [])
        && (q'.cons == PopIdle(false) <==> Items(q) != [] && q'.popped == q.popped + [Items(q)[0]])
        && (q'.cons.PopIdle? || q'.popped == q.popped)
  {
    RunKeeps(qs, actors, i);
    assert Next(qs[i], actors[i], qs[i + 1]);
    if actors[i].ByProducer? && qs[i].prod.PushTail? {
      PushTailKeeps(qs[i], qs[i + 1]);
    }
    if actors[i].ByConsumer? && qs[i].cons.PopHead? {
      PopHeadKeeps(qs[i], qs[i + 1]);
    }
    if actors[i].ByConsumer? && qs[i].cons.PopCopy? && |qs[i].cons.got| >= qs[i].words {
      ReleaseKeeps(qs[i], qs[i + 1]);
    }
  }

  // ---- size() -----------------------------------------------------------------------------------

  /** The value of `size()` whose tail load happens at state `i` and whose head load at state `j`. */
  function Size(qs: seq<Queue>, i: nat, j: nat): nat
    requires i <= j < |qs|
  {
    Diff64(qs[i].tail, qs[j].head)
  }

  lemma {:induction false} IndicesGrow(qs: seq<Queue>, actors: seq<Actor>, i: nat, j: nat)
    requires Run(qs, actors) && i <= j < |qs|
    ensures |qs[i].pushed| <= |qs[j].pushed| && |qs[i].popped| <= |qs[j].popped|
    decreases j
  {
    hide Init, Next;
    if i < j {
      IndicesGrow(qs, actors, i, j - 1);
      RunIsFifo(qs, actors, j - 1);
    }
  }

  /** Called by the producer (no push in between) or by the consumer (no pop in between), `size()`
      is the exact difference of the two loads and never exceeds the capacity. */
  lemma SizeByOwner(qs: seq<Queue>, actors: seq<Actor>, i: nat, j: nat)
    requires Run(qs, actors) && i <= j < |qs|
    requires |qs[i].pushed| == |qs[j].pushed| || |qs[i].popped| == |qs[j].popped|
    ensures Size(qs, i, j) == |qs[i].pushed| - |qs[j].popped| <= qs[0].cap
  {
    RunKeeps(qs, actors, i);
    RunKeeps(qs, actors, j);
    IndicesGrow(qs, actors, i, j);
    TrueDistance(|qs[i].pushed|, |qs[j].popped|);
  }

  /** Called by a third thread, `size()` stays within the capacity exactly when the consumer has not
      overtaken the tail that was loaded; otherwise the unsigned difference wraps. */
  lemma SizeByOther(qs: seq<Queue>, actors: seq<Actor>, i: nat, j: nat)
    requires Run(qs, actors) && i <= j < |qs|
    requires |qs[j].popped| - |qs[i].pushed| < TWO64 - qs[0].cap
    ensures Size(qs, i, j) <= qs[0].cap <==> |qs[j].popped| <= |qs[i].pushed|
  {
    RunKeeps(qs, actors, i);
    RunKeeps(qs, actors, j);
    IndicesGrow(qs, actors, i, j);
    var t, h := |qs[i].pushed|, |qs[j].popped|;
    if h <= t {
      TrueDistance(t, h);
    } else {
      Overtaken(t, h);
    }
  }

  lemma Overtaken(t: nat, h: nat)
    requires t < h < t + TWO64
    ensures Diff64(t % TWO64, h % TWO64) == TWO64 - (h - t)
  {
  }
}
