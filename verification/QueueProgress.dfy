/** `SPSCQueue` is wait-free: every call of either side ends after a bounded number of its own steps,
    whatever the other side does, and neither side is ever unable to take its next step. */
module QueueProgress {
  import opened Arithmetic
  import opened SpscQueue
  import opened SpscQueueProofs

  /** Steps that the producer has left in its call, if it does not fail. */
  function PushLeft(q: Queue): nat {
    match q.prod
    case PushIdle(_) => 0
    case PushStart(v) => |v| + 3
    case PushTail(v, _) => |v| + 2
    case PushCopy(v, _, j) => if j <= |v| then |v| - j + 1 else 0
  }

  function PopLeft(q: Queue): nat {
    match q.cons
    case PopIdle(_) => 0
    case PopStart => q.words + 3
    case PopHead(_) => q.words + 2
    case PopCopy(_, got) => if |got| <= q.words then q.words - |got| + 1 else 0
  }

  /** Number of steps by `who` among steps `i` to `j - 1`. */
  function Steps(actors: seq<Actor>, who: Actor, i: nat, j: nat): nat
    requires i <= j <= |actors|
    decreases j
  {
    if i == j then 0 else Steps(actors, who, i, j - 1) + if actors[j - 1] == who then 1 else 0
  }

  /** The producer, or the consumer, is inside one call in the states `i` to `j - 1`. */
  predicate Pushing(qs: seq<Queue>, i: nat, j: nat) {
    j < |qs| && forall k :: i <= k < j ==> !qs[k].prod.PushIdle?
  }

  predicate Popping(qs: seq<Queue>, i: nat, j: nat) {
    j < |qs| && forall k :: i <= k < j ==> !qs[k].cons.PopIdle?
  }

  lemma StepLeft(q: Queue, actor: Actor, q': Queue)
    requires Inv(q) && Next(q, actor, q')
    ensures !q.prod.PushIdle? ==> PushLeft(q') + (if actor.ByProducer? then 1 else 0) <= PushLeft(q) <= q.words + 3
    ensures !q.cons.PopIdle? ==> PopLeft(q') + (if actor.ByConsumer? then 1 else 0) <= PopLeft(q) <= q.words + 3
  {
  }

  lemma {:induction false} PushCounts(qs: seq<Queue>, actors: seq<Actor>, i: nat, j: nat)
    requires Run(qs, actors) && i <= j && Pushing(qs, i, j)
    ensures Steps(actors, ByProducer, i, j) + PushLeft(qs[j]) <= PushLeft(qs[i])
    decreases j
  {
    hide Init, Inv, Next, PushLeft, PopLeft;
    if i < j {
      PushCounts(qs, actors, i, j - 1);
      RunKeeps(qs, actors, j - 1);
      assert Next(qs[j - 1], actors[j - 1], qs[j - 1 + 1]);
      StepLeft(qs[j - 1], actors[j - 1], qs[j]);
    }
  }

  lemma {:induction false} PopCounts(qs: seq<Queue>, actors: seq<Actor>, i: nat, j: nat)
    requires Run(qs, actors) && i <= j && Popping(qs, i, j)
    ensures Steps(actors, ByConsumer, i, j) + PopLeft(qs[j]) <= PopLeft(qs[i])
    decreases j
  {
    hide Init, Inv, Next, PushLeft, PopLeft;
    if i < j {
      PopCounts(qs, actors, i, j - 1);
      RunKeeps(qs, actors, j - 1);
      assert Next(qs[j - 1], actors[j - 1], qs[j - 1 + 1]);
      StepLeft(qs[j - 1], actors[j - 1], qs[j]);
    }
  }

  /** In every run, no call takes more of its own steps than there are words in an item, and three. */
  lemma WaitFree(qs: seq<Queue>, actors: seq<Actor>, i: nat, j: nat)
    requires Run(qs, actors) && i <= j < |qs|
    ensures Pushing(qs, i, j) ==> Steps(actors, ByProducer, i, j) <= qs[i].words + 3
    ensures Popping(qs, i, j) ==> Steps(actors, ByConsumer, i, j) <= qs[i].words + 3
  {
    RunKeeps(qs, actors, i);
    if i < j {
      assert Next(qs[i], actors[i], qs[i + 1]);
      StepLeft(qs[i], actors[i], qs[i + 1]);
    }
    hide Inv, Next, PushLeft, PopLeft;
    if Pushing(qs, i, j) { PushCounts(qs, actors, i, j); }
    if Popping(qs, i, j) { PopCounts(qs, actors, i, j); }
  }

  /** In every state that satisfies the invariant both sides can take a step. */
  lemma NeverBlocked(q: Queue) returns (p: Queue, c: Queue)
    requires Inv(q)
    ensures Next(q, ByProducer, p) && Next(q, ByConsumer, c)
  {
    p, c := q, q;
    MaskedSlot(|q.pushed|, q.cap);
    MaskedSlot(|q.popped|, q.cap);
    match q.prod {
      case PushIdle(_) =>
      case PushStart(v) => p := q.(prod := PushTail(v, q.tail));
      case PushTail(v, t) => p := q.(prod := if Diff64(t, q.head) >= q.cap then PushIdle(true) else PushCopy(v, t, 0));
      case PushCopy(v, t, j) =>
        var i := Slot(t, q.cap);
        p := if j < |v| then q.(slots := q.slots[i := q.slots[i][j := v[j]]], prod := PushCopy(v, t, j + 1))
             else q.(tail := (t + 1) % TWO64, prod := PushIdle(false), pushed := q.pushed + [v]);
    }
    match q.cons {
      case PopIdle(_) =>
      case PopStart => c := q.(cons := PopHead(q.head));
      case PopHead(h) => c := q.(cons := if h == q.tail then PopIdle(true) else PopCopy(h, []));
      case PopCopy(h, got) =>
        c := if |got| < q.words then q.(cons := PopCopy(h, got + [q.slots[Slot(h, q.cap)][|got|]]))
             else q.(head := (h + 1) % TWO64, cons := PopIdle(false), popped := q.popped + [got]);
    }
  }
}
