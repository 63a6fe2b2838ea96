/** `SPSCQueue`: fixed slots, free-running 64-bit indices, slot lookup by mask.

    `head` and `tail` hold the indices modulo 2^64, exactly as stored; `pushed` and `popped` are
    the histories of completed pushes and pops, so `|pushed|` and `|popped|` are the indices that
    never wrap. A slot is copied one word at a time. */
module SpscQueue {
  import opened Arithmetic

  type Item = seq<int>

  datatype Producer =
    | PushIdle(full: bool)
    | PushStart(v: Item)
    | PushTail(v: Item, t: nat)
    | PushCopy(v: Item, t: nat, j: nat)

  datatype Consumer =
    | PopIdle(empty: bool)
    | PopStart
    | PopHead(h: nat)
    | PopCopy(h: nat, got: Item)

  datatype Queue = Queue(
    words: nat, cap: nat,
    head: nat, tail: nat, slots: seq<Item>,
    prod: Producer, cons: Consumer,
    pushed: seq<Item>, popped: seq<Item>)

  datatype Actor = ByProducer | ByConsumer | ProducerDies | ConsumerDies

  /** Slot of a stored index: `i & (Capacity - 1)`. */
  function Slot(i: nat, cap: nat): nat
    requires cap > 0
  {
    BitAnd(i, cap - 1)
  }

  predicate PushStep(q: Queue, q': Queue)
    requires q.cap > 0
  {
    match q.prod
    case PushIdle(_) =>
      || q' == q
      || (q'.prod.PushStart? && |q'.prod.v| == q.words && q' == q.(prod := q'.prod))
    case PushStart(v) => q' == q.(prod := PushTail(v, q.tail))
    case PushTail(v, t) =>
      q' == q.(prod := if Diff64(t, q.head) >= q.cap then PushIdle(true) else PushCopy(v, t, 0))
    case PushCopy(v, t, j) =>
      if j < |v| then
        var i := Slot(t, q.cap);
        && i < |q.slots| && j < |q.slots[i]|
        && q' == q.(slots := q.slots[i := q.slots[i][j := v[j]]], prod := PushCopy(v, t, j + 1))
      else
        q' == q.(tail := (t + 1) % TWO64, prod := PushIdle(false), pushed := q.pushed + [v])
  }

  predicate PopStep(q: Queue, q': Queue)
    requires q.cap > 0
  {
    match q.cons
    case PopIdle(_) => q' == q || q' == q.(cons := PopStart)
    case PopStart => q' == q.(cons := PopHead(q.head))
    case PopHead(h) => q' == q.(cons := if h == q.tail then PopIdle(true) else PopCopy(h, []))
    case PopCopy(h, got) =>
      if |got| < q.words then
        var i := Slot(h, q.cap);
        && i < |q.slots| && |got| < |q.slots[i]|
        && q' == q.(cons := PopCopy(h, got + [q.slots[i][|got|]]))
      else
        q' == q.(head := (h + 1) % TWO64, cons := PopIdle(false), popped := q.popped + [got])
  }

  /** A process that dies is replaced by one that resumes from the stored indices. */
  predicate Next(q: Queue, actor: Actor, q': Queue)
    requires q.cap > 0
  {
    match actor
    case ByProducer => PushStep(q, q')
    case ByConsumer => PopStep(q, q')
    case ProducerDies => q' == q.(prod := PushIdle(false))
    case ConsumerDies => q' == q.(cons := PopIdle(false))
  }

  /** The compile-time check on `Capacity`, a 64-bit size. */
  predicate LegalCapacity(cap: nat) {
    0 < cap < TWO64 && BitAnd(cap, cap - 1) == 0
  }

  predicate Init(q: Queue) {
    && LegalCapacity(q.cap)
    && q.head == 0 && q.tail == 0 && |q.slots| == q.cap
    && (forall i :: 0 <= i < |q.slots| ==> |q.slots[i]| == q.words)
    && q.prod == PushIdle(false) && q.cons == PopIdle(false) && q.pushed == [] && q.popped == []
  }

  predicate Run(qs: seq<Queue>, actors: seq<Actor>) {
    && |qs| == |actors| + 1
    && Init(qs[0])
    && forall i :: 0 <= i < |actors| ==> qs[i].cap > 0 && Next(qs[i], actors[i], qs[i + 1])
  }

  // ---- Invariant ----------------------------------------------------------------------------

  /** Slot of the item with unbounded index `i`. */
  function Home(i: nat, cap: nat): (s: nat)
    requires cap > 0
    ensures s < cap
  {
    i % cap
  }

  predicate Shape(q: Queue) {
    && LegalCapacity(q.cap) && |q.slots| == q.cap
    && (forall i :: 0 <= i < |q.slots| ==> |q.slots[i]| == q.words)
    && (forall i :: 0 <= i < |q.pushed| ==> |q.pushed[i]| == q.words)
  }

  predicate Indices(q: Queue) {
    && q.tail == |q.pushed| % TWO64 && q.head == |q.popped| % TWO64
    && |q.popped| <= |q.pushed| <= |q.popped| + q.cap
    && q.popped <= q.pushed
  }

  predicate Stored(q: Queue)
    requires Shape(q)
  {
    forall i :: |q.popped| <= i < |q.pushed| ==> q.slots[Home(i, q.cap)] == q.pushed[i]
  }

  predicate ProducerOK(q: Queue)
    requires Shape(q)
  {
    match q.prod
    case PushIdle(_) => true
    case PushStart(v) => |v| == q.words
    case PushTail(v, t) => |v| == q.words && t == q.tail
    case PushCopy(v, t, j) =>
      && |v| == q.words && t == q.tail && |q.pushed| < |q.popped| + q.cap
      && j <= q.words && q.slots[Home(|q.pushed|, q.cap)][..j] == v[..j]
  }

  predicate ConsumerOK(q: Queue) {
    match q.cons
    case PopIdle(_) => true
    case PopStart => true
    case PopHead(h) => h == q.head
    case PopCopy(h, got) =>
      && h == q.head && |q.popped| < |q.pushed|
      && got <= q.pushed[|q.popped|]
  }

  predicate Inv(q: Queue) {
    Shape(q) && Indices(q) && Stored(q) && ProducerOK(q) && ConsumerOK(q)
  }

  /** The abstract queue. */
  function Items(q: Queue): seq<Item>
    requires |q.popped| <= |q.pushed|
  {
    q.pushed[|q.popped|..]
  }
}
