/** The multi-producer writer: reserve by compare-and-swap on `tail_reserve`, write in place,
    publish in reservation order through `tail_publish`.

    Every load, store and read-modify-write of shared memory is one step; payload bytes are
    copied one at a time. Any number of producers take steps in any order. */
module RingWriter {
  import opened Arithmetic
  import opened Bytes
  import opened RingLayout
  import opened FrameLog
  import opened Fifo

  /** Where a producer that holds a reservation stands. */
  datatype Stage =
    | WrapHeader(j: nat)
    | RecordHeader(j: nat)
    | Copy(k: nat)
    | Turn
    | Bumped(n: nat)
    | Sequenced(n: nat)

  datatype Producer =
    | Idle
    | LoadHead(req: Request)
    | LoadTail(req: Request, h: nat)
    | Reserve(req: Request, h: nat, t: nat)
    | InFlight(req: Request, start: nat, pad: nat, first: nat, stage: Stage)

  /** Where a record of `n` payload bytes would go, from snapshots of head and tail. */
  datatype Placement = Refused | Placed(pad: nat, wrap: bool)

  function Place(cap: nat, h: nat, t: nat, n: nat): Placement
    requires cap > 0
  {
    var used := Diff64(t, h);
    var size := RecordSize(n);
    var remaining := cap - Pos(t, cap);
    var pad := if remaining < HEADER || remaining < size then remaining else 0;
    var wrap := remaining >= HEADER && remaining < size;
    if used > cap || used + pad + size > cap then Refused else Placed(pad, wrap)
  }

  function NewFrames(t: nat, pad: nat, req: Request, ord: nat, p: nat): seq<Frame> {
    (if pad > 0 then [Pad(t, pad, ord, p)] else []) + [Rec(t + pad, req.typ, req.payload, ord, p)]
  }

  function FirstStage(place: Placement): Stage
    requires place.Placed?
  {
    if place.pad > 0 && place.wrap && place.pad >= HEADER then WrapHeader(0) else RecordHeader(0)
  }

  /** Physical position of the record, as the writer computes it. */
  function RecordPos(cap: nat, pc: Producer): nat
    requires cap > 0 && pc.InFlight?
  {
    if pc.pad > 0 then 0 else Pos(pc.start, cap)
  }

  /** Index in the history of the record of a reservation. */
  function RecordIndex(pc: Producer): nat
    requires pc.InFlight?
  {
    if pc.pad > 0 then pc.first + 1 else pc.first
  }

  function PublishTo(pc: Producer): nat
    requires pc.InFlight?
  {
    pc.start + pc.pad + RecordSize(|pc.req.payload|)
  }

  // ---- Steps ---------------------------------------------------------------------------

  predicate StoreStep(r: Ring, a: nat, bs: seq<byte>, r': Ring) {
    a + |bs| <= |r.mem| && r' == r.(mem := Write(r.mem, a, bs))
  }

  predicate ReserveStep(r: Ring, p: nat, pc: Producer, r': Ring, pc': Producer)
    requires r.cap > 0 && pc.Reserve?
  {
    var place := Place(r.cap, pc.h, pc.t, |pc.req.payload|);
    if place.Refused? then
      r' == r && pc' == Idle
    else
      // The weak compare-and-swap may fail even on an equal value.
      || (r' == r && pc' == LoadHead(pc.req))
      || (&& r.tr == pc.t
          && r' == r.(tr := pc.t + place.pad + RecordSize(|pc.req.payload|),
                      log := r.log + NewFrames(pc.t, place.pad, pc.req, OrdAt(r.log, |r.log|), p))
          && pc' == InFlight(pc.req, pc.t, place.pad, |r.log|, FirstStage(place)))
  }

  /** The producer's next step is a plain store into the ring. */
  predicate Storing(pc: Producer) {
    pc.InFlight? &&
    match pc.stage
    case WrapHeader(j) => j < 4
    case RecordHeader(j) => j < 4
    case Copy(k) => k < |pc.req.payload|
    case Turn => false
    case Bumped(_) => true
    case Sequenced(_) => false
  }

  function StoreAt(cap: nat, pc: Producer): nat
    requires cap > 0 && Storing(pc)
  {
    match pc.stage
    case WrapHeader(j) => FieldAt(Pos(pc.start, cap), j)
    case RecordHeader(j) => FieldAt(RecordPos(cap, pc), j)
    case Copy(k) => RecordPos(cap, pc) + HEADER + k
    case Bumped(_) => RecordPos(cap, pc) + 8
  }

  function StoreBytes(pc: Producer): seq<byte>
    requires Storing(pc)
  {
    match pc.stage
    case WrapHeader(j) => FieldBytes(0, 0, WRAP_FLAG, 0, j)
    case RecordHeader(j) => FieldBytes(|pc.req.payload|, pc.req.typ, 0, 0, j)
    case Copy(k) => [pc.req.payload[k]]
    case Bumped(n) => LE(n, 8)
  }

  function AfterStore(pc: Producer): Producer
    requires Storing(pc)
  {
    pc.(stage := match pc.stage
                 case WrapHeader(j) => if j < 3 then WrapHeader(j + 1) else RecordHeader(0)
                 case RecordHeader(j) => if j < 3 then RecordHeader(j + 1) else Copy(0)
                 case Copy(k) => Copy(k + 1)
                 case Bumped(n) => Sequenced(n))
  }

  predicate FlightStep(r: Ring, p: nat, pc: Producer, r': Ring, pc': Producer, e: Event)
    requires r.cap > 0 && pc.InFlight?
  {
    if Storing(pc) then
      && e == Internal
      && StoreStep(r, StoreAt(r.cap, pc), StoreBytes(pc), r')
      && pc' == AfterStore(pc)
    else match pc.stage
      case Copy(_) =>
        // Spin until every earlier reservation has been published.
        e == Internal && r' == r && pc' == if r.tp == pc.start then pc.(stage := Turn) else pc
      case Turn =>
        e == Internal && r' == r.(sq := r.sq + 1) && pc' == pc.(stage := Bumped(r.sq + 1))
      case Sequenced(n) =>
        && r' == r.(tp := PublishTo(pc), iTp := RecordIndex(pc) + 1)
        && pc' == Idle
        && e == Push(p, Message(pc.req.typ, pc.req.payload, n % TWO64))
      case _ => false
  }

  /** One atomic step of producer `p`. */
  predicate ProducerStep(r: Ring, p: nat, pc: Producer, r': Ring, pc': Producer, e: Event)
    requires r.cap > 0
  {
    match pc
    case Idle =>
      && e == Internal && r' == r
      && (pc' == Idle
          || (pc'.LoadHead? && ValidRequest(pc'.req) && RecordSize(|pc'.req.payload|) <= r.cap))
    case LoadHead(q) => e == Internal && r' == r && pc' == LoadTail(q, r.hp)
    case LoadTail(q, h) => e == Internal && r' == r && pc' == Reserve(q, h, r.tr)
    case Reserve(_, _, _) => e == Internal && ReserveStep(r, p, pc, r', pc')
    case InFlight(_, _, _, _, _) => FlightStep(r, p, pc, r', pc', e)
  }

  // ---- Invariant -----------------------------------------------------------------------

  /** The frames of a reservation are where the producer thinks they are. */
  predicate InLog(log: seq<Frame>, p: nat, pc: Producer)
    requires pc.InFlight?
  {
    match pc
    case InFlight(req, start, pad, first, _) =>
      var i := RecordIndex(pc);
      && i < |log|
      && log[i] == Rec(start + pad, req.typ, req.payload, log[i].ord, p)
      && (pad > 0 ==> log[first] == Pad(start, pad, log[i].ord, p))
  }

  predicate PadDone(cap: nat, mem: seq<byte>, pc: Producer)
    requires cap > 0 && pc.InFlight?
  {
    pc.pad >= HEADER ==> Holds(mem, Pos(pc.start, cap) + 6, LE(WRAP_FLAG, 2))
  }

  /** What the producer has written so far is still there. */
  predicate StageMem(cap: nat, mem: seq<byte>, pc: Producer)
    requires cap > 0 && pc.InFlight?
  {
    match pc
    case InFlight(q, start, pad, _, stage) =>
      var at := RecordPos(cap, pc);
      match stage
      case WrapHeader(j) =>
        pad >= HEADER && j < 4 && HeaderFields(mem, Pos(start, cap), 0, 0, WRAP_FLAG, 0, j)
      case RecordHeader(j) =>
        PadDone(cap, mem, pc) && j < 4 && HeaderFields(mem, at, |q.payload|, q.typ, 0, 0, j)
      case Copy(k) =>
        PadDone(cap, mem, pc) && k <= |q.payload| && RecordBytes(mem, at, q, 0, k)
      case Turn =>
        PadDone(cap, mem, pc) && RecordBytes(mem, at, q, 0, |q.payload|)
      case Bumped(_) =>
        PadDone(cap, mem, pc) && RecordBytes(mem, at, q, 0, |q.payload|)
      case Sequenced(n) =>
        PadDone(cap, mem, pc) && RecordBytes(mem, at, q, n, |q.payload|)
  }

  predicate HasTurn(pc: Producer) {
    pc.InFlight? && (pc.stage.Turn? || pc.stage.Bumped? || pc.stage.Sequenced?)
  }

  /** Between its increment of the sequence counter and its publication. */
  predicate HasNumber(pc: Producer) {
    pc.InFlight? && (pc.stage.Bumped? || pc.stage.Sequenced?)
  }

  predicate FlightOK(r: Ring, p: nat, pc: Producer)
    requires r.cap > 0 && pc.InFlight?
  {
    match pc
    case InFlight(_, _, _, first, stage) =>
      && r.iTp <= first
      && InLog(r.log, p, pc)
      && StageMem(r.cap, r.mem, pc)
      && (HasTurn(pc) ==> first == r.iTp)
      && (HasNumber(pc) ==> stage.n == r.sq == r.log[RecordIndex(pc)].ord + 1)
  }

  predicate ProducerOK(r: Ring, p: nat, pc: Producer)
    requires r.cap > 0
  {
    match pc
    case Idle => true
    case LoadHead(q) => ValidRequest(q) && RecordSize(|q.payload|) <= r.cap
    case LoadTail(q, h) => ValidRequest(q) && RecordSize(|q.payload|) <= r.cap && h <= r.hp
    case Reserve(q, h, t) =>
      ValidRequest(q) && RecordSize(|q.payload|) <= r.cap && h <= r.hp && h <= t <= r.tr
    case InFlight(_, _, _, _, _) => FlightOK(r, p, pc)
  }

  predicate OwnsFrame(prods: seq<Producer>, p: nat, i: nat) {
    p < |prods| && prods[p].InFlight? && prods[p].first <= i <= RecordIndex(prods[p])
  }

  /** Reserved and unpublished frames are exactly those of the producers in flight. */
  predicate Owned(r: Ring, prods: seq<Producer>) {
    match r
    case Ring(_, _, _, _, _, _, _, log, _, iTp) =>
      forall i :: iTp <= i < |log| ==> OwnsFrame(prods, log[i].owner, i)
  }

  predicate AllProducers(r: Ring, prods: seq<Producer>)
    requires r.cap > 0
  {
    match r
    case Ring(_, _, _, _, _, _, _, _, _, _) =>
      forall p :: 0 <= p < |prods| ==> ProducerOK(r, p, prods[p])
  }

  /** Padding comes with its record, and both are published together. */
  predicate Paired(log: seq<Frame>, iTp: nat)
    requires iTp <= |log|
  {
    && (forall i :: 0 <= i < |log| && log[i].Pad? ==> i + 1 < |log| && log[i + 1].Rec?)
    && (iTp > 0 ==> log[iTp - 1].Rec?)
  }

  predicate CounterOK(r: Ring, prods: seq<Producer>)
    requires r.iTp <= |r.log|
  {
    match r
    case Ring(_, _, _, _, _, sq, _, log, _, iTp) =>
      sq == OrdAt(log, iTp) +
            (if iTp < |log| && log[iTp].owner < |prods| && HasNumber(prods[log[iTp].owner]) then 1 else 0)
  }

  predicate WriterInv(r: Ring, prods: seq<Producer>) {
    match r
    case Ring(_, _, _, tr, _, _, _, log, _, iTp) =>
      && RingInv(r)
      && tr == Off(log, |log|)
      && DenseOrds(log)
      && Paired(log, iTp)
      && AllProducers(r, prods)
      && Owned(r, prods)
      && CounterOK(r, prods)
  }

  /** All that the consumers need to know about a producer step. */
  predicate WriterEffect(r: Ring, r': Ring) {
    && r'.cap == r.cap && r'.hp == r.hp && r'.hr == r.hr && r'.iHp == r.iHp
    && r.log <= r'.log && r.iTp <= r'.iTp && r.tp <= r'.tp
  }
}
