/** The single-producer writer: plain stores, padding published on its own before the record.
    The producer may die after any step; its successor may call `claim` or just open the ring. */
module SpscRing {
  import opened Arithmetic
  import opened Bytes
  import opened RingLayout
  import opened FrameLog
  import opened Fifo

  /** What is being written at the tail. */
  datatype Stage =
    | WrapHeader(j: nat)
    | RecordHeader(j: nat)
    | Copy(k: nat)
    | Bumped(n: nat)
    | Sequenced(n: nat)

  datatype Pusher =
    | Idle
    | LoadHead(req: Request)
    | LoadTail(req: Request, h: nat)
    | Decide(req: Request, h: nat, t: nat)
    | Filling(req: Request, t: nat, stage: Stage)
    | SkipTail(req: Request, nt: nat, half: bool)
    | PublishTail(req: Request, t: nat, n: nat)
    | Claiming
    | Claimed(v: nat)

  predicate Writing(pc: Pusher) {
    pc.Filling? &&
    match pc.stage
    case WrapHeader(j) => j < 4
    case RecordHeader(j) => j < 4
    case Copy(k) => k < |pc.req.payload|
    case Bumped(_) => true
    case Sequenced(_) => false
  }

  function StoreAt(cap: nat, pc: Pusher): nat
    requires cap > 0 && Writing(pc)
  {
    match pc.stage
    case WrapHeader(j) => FieldAt(Pos(pc.t, cap), j)
    case RecordHeader(j) => FieldAt(Pos(pc.t, cap), j)
    case Copy(k) => Pos(pc.t, cap) + HEADER + k
    case Bumped(_) => Pos(pc.t, cap) + 8
  }

  function StoreBytes(pc: Pusher): seq<byte>
    requires Writing(pc)
  {
    match pc.stage
    case WrapHeader(j) => FieldBytes(0, 0, WRAP_FLAG, 0, j)
    case RecordHeader(j) => FieldBytes(|pc.req.payload|, pc.req.typ, 0, 0, j)
    case Copy(k) => [pc.req.payload[k]]
    case Bumped(n) => LE(n, 8)
  }

  function AfterStore(cap: nat, pc: Pusher): Pusher
    requires cap > 0 && Writing(pc)
  {
    match pc.stage
    case WrapHeader(j) =>
      if j < 3 then pc.(stage := WrapHeader(j + 1)) else SkipTail(pc.req, pc.t + (cap - Pos(pc.t, cap)), false)
    case RecordHeader(j) => pc.(stage := if j < 3 then RecordHeader(j + 1) else Copy(0))
    case Copy(k) => pc.(stage := Copy(k + 1))
    case Bumped(n) => pc.(stage := Sequenced(n))
  }

  /** The branches of the push loop, from snapshots of head and tail. */
  function Decision(cap: nat, pc: Pusher): Pusher
    requires cap > 0 && pc.Decide?
  {
    var used := Diff64(pc.t, pc.h);
    var remaining := cap - Pos(pc.t, cap);
    var size := RecordSize(|pc.req.payload|);
    if used > cap then Idle
    else if remaining < HEADER then
      if used + remaining > cap then Idle else SkipTail(pc.req, pc.t + remaining, false)
    else if remaining < size then
      if used + remaining + size > cap then Idle else Filling(pc.req, pc.t, WrapHeader(0))
    else if used + size > cap then Idle
    else Filling(pc.req, pc.t, RecordHeader(0))
  }

  /** One atomic step of the producer. */
  predicate PusherStep(r: Ring, pc: Pusher, r': Ring, pc': Pusher, e: Event)
    requires r.cap > 0
  {
    match pc
    case Idle =>
      && e == Internal && r' == r
      && (pc' == Idle
          || (pc'.LoadHead? && ValidRequest(pc'.req) && RecordSize(|pc'.req.payload|) <= r.cap))
    case LoadHead(q) => e == Internal && r' == r && pc' == LoadTail(q, r.hp)
    case LoadTail(q, h) => e == Internal && r' == r && pc' == Decide(q, h, r.tp)
    case Decide(_, _, _) => e == Internal && r' == r && pc' == Decision(r.cap, pc)
    case Filling(q, t, stage) =>
      && e == Internal
      && if Writing(pc) then
           && StoreAt(r.cap, pc) + |StoreBytes(pc)| <= |r.mem|
           && r' == r.(mem := Write(r.mem, StoreAt(r.cap, pc), StoreBytes(pc)))
           && pc' == AfterStore(r.cap, pc)
         else if stage.Copy? then
           r' == r.(sq := r.sq + 1) && pc' == pc.(stage := Bumped(r.sq + 1))
         else
           && stage.Sequenced?
           && r' == r.(tr := t + RecordSize(|q.payload|))
           && pc' == PublishTail(q, t, stage.n)
    case SkipTail(q, nt, half) =>
      && e == Internal
      && if !half then
           r' == r.(tr := nt) && pc' == SkipTail(q, nt, true)
         else
           && nt >= r.tp
           && r' == r.(tp := nt, log := r.log + [Pad(r.tp, nt - r.tp, OrdAt(r.log, |r.log|), 0)], iTp := r.iTp + 1)
           && pc' == LoadHead(q)
    case PublishTail(q, t, n) =>
      && n > 0
      && r' == r.(tp := t + RecordSize(|q.payload|),
                  log := r.log + [Rec(t, q.typ, q.payload, n - 1, 0)], iTp := r.iTp + 1)
      && pc' == Idle
      && e == Push(0, Message(q.typ, q.payload, n % TWO64))
    case Claiming => e == Internal && r' == r && pc' == Claimed(r.tp)
    case Claimed(v) => e == Internal && r' == r.(tr := v) && pc' == Idle
  }

  /** The producer process dies; the next one claims the ring or opens it. */
  predicate CrashStep(r: Ring, r': Ring, pc': Pusher, e: Event) {
    e == Internal && r' == r && (pc' == Claiming || pc' == Idle)
  }

  // ---- Invariant -----------------------------------------------------------------------

  /** Sequence numbers never go back, though a crash may skip one. */
  predicate IncreasingOrds(log: seq<Frame>) {
    forall i {:trigger OrdAt(log, i)} :: 0 <= i < |log| ==> log[i].ord >= OrdAt(log, i)
  }

  predicate StageMem(cap: nat, mem: seq<byte>, pc: Pusher)
    requires cap > 0 && pc.Filling?
  {
    match pc.stage
    case WrapHeader(j) => j < 4 && HeaderFields(mem, Pos(pc.t, cap), 0, 0, WRAP_FLAG, 0, j)
    case RecordHeader(j) =>
      j < 4 && HeaderFields(mem, Pos(pc.t, cap), |pc.req.payload|, pc.req.typ, 0, 0, j)
    case Copy(k) => k <= |pc.req.payload| && RecordBytes(mem, Pos(pc.t, cap), pc.req, 0, k)
    case Bumped(_) => RecordBytes(mem, Pos(pc.t, cap), pc.req, 0, |pc.req.payload|)
    case Sequenced(n) => RecordBytes(mem, Pos(pc.t, cap), pc.req, n, |pc.req.payload|)
  }

  /** The frame at the tail that the producer is about to publish. */
  function Draft(cap: nat, pc: Pusher, ord: nat): Frame
    requires cap > 0 && pc.Filling?
  {
    if pc.stage.WrapHeader? then Pad(pc.t, cap - Pos(pc.t, cap), ord, 0)
    else Rec(pc.t, pc.req.typ, pc.req.payload, ord, 0)
  }

  predicate NumberOK(r: Ring, n: nat) {
    OrdAt(r.log, |r.log|) < n == r.sq
  }

  predicate PusherOK(r: Ring, pc: Pusher)
    requires r.cap > 0
  {
    match pc
    case Idle => true
    case LoadHead(q) => ValidRequest(q) && RecordSize(|q.payload|) <= r.cap
    case LoadTail(q, h) => ValidRequest(q) && RecordSize(|q.payload|) <= r.cap && h <= r.hp
    case Decide(q, h, t) =>
      ValidRequest(q) && RecordSize(|q.payload|) <= r.cap && h <= r.hp && h <= t == r.tp
    case Filling(q, t, stage) =>
      && ValidRequest(q) && RecordSize(|q.payload|) <= r.cap && t == r.tp
      && FrameOK(r.cap, Draft(r.cap, pc, 0)) && Hi(Draft(r.cap, pc, 0)) <= r.hp + r.cap
      && (stage.WrapHeader? ==> r.cap - Pos(t, r.cap) >= HEADER)
      && StageMem(r.cap, r.mem, pc)
      && (stage.Bumped? || stage.Sequenced? ==> NumberOK(r, stage.n))
    case SkipTail(q, nt, _) =>
      && ValidRequest(q) && RecordSize(|q.payload|) <= r.cap
      && nt == r.tp + (r.cap - Pos(r.tp, r.cap)) <= r.hp + r.cap
      && Pos(r.tp, r.cap) != 0
      && (r.cap - Pos(r.tp, r.cap) >= HEADER ==> Holds(r.mem, Pos(r.tp, r.cap) + 6, LE(WRAP_FLAG, 2)))
    case PublishTail(q, t, n) =>
      && ValidRequest(q) && t == r.tp && NumberOK(r, n)
      && Pos(t, r.cap) + RecordSize(|q.payload|) <= r.cap
      && t + RecordSize(|q.payload|) <= r.hp + r.cap
      && RecordBytes(r.mem, Pos(t, r.cap), q, n, |q.payload|)
    case Claiming => true
    case Claimed(v) => v == r.tp
  }

  predicate WriterInv(r: Ring, pc: Pusher) {
    match r
    case Ring(_, _, _, _, _, sq, _, log, _, iTp) =>
      && RingInv(r)
      && iTp == |log|
      && IncreasingOrds(log)
      && OrdAt(log, |log|) <= sq
      && PusherOK(r, pc)
  }
}
