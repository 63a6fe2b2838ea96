/** Every step of every producer keeps the invariant and is a step of the queue. */
module RingWriterProofs {
  import opened Arithmetic
  import opened Bytes
  import opened RingLayout
  import opened FrameLog
  import opened FrameLogFacts
  import opened Fifo
  import opened RingWriter

  // ---- Proof that every step keeps the invariant --------------------------------------------

  /** The record lies where the writer computes it. */
  lemma RecordPosAgrees(r: Ring, p: nat, pc: Producer)
    requires RingInv(r) && pc.InFlight? && InLog(r.log, p, pc)
    ensures RecordPos(r.cap, pc) == Pos(pc.start + pc.pad, r.cap)
    ensures RecordPos(r.cap, pc) + RecordSize(|pc.req.payload|) <= r.cap
    ensures pc.pad > 0 ==> Pos(pc.start, r.cap) + pc.pad == r.cap
  {
    assert FrameOK(r.cap, r.log[RecordIndex(pc)]);
    if pc.pad > 0 {
      assert FrameOK(r.cap, r.log[pc.first]);
      PosWrap(pc.start, pc.pad, r.cap);
    }
  }

  /** Written bytes survive a change elsewhere. */
  lemma StageKept(r: Ring, p: nat, pc: Producer, mem': seq<byte>)
    requires RingInv(r) && pc.InFlight? && InLog(r.log, p, pc) && StageMem(r.cap, r.mem, pc)
    requires pc.pad > 0 ==> SameOn(r.mem, mem', Pos(pc.start, r.cap), Pos(pc.start, r.cap) + pc.pad)
    requires SameOn(r.mem, mem', RecordPos(r.cap, pc), RecordPos(r.cap, pc) + RecordSize(|pc.req.payload|))
    ensures StageMem(r.cap, mem', pc)
  {
    var q, at := pc.req, RecordPos(r.cap, pc);
    var wrapAt := Pos(pc.start, r.cap);
    if pc.pad >= HEADER && !pc.stage.WrapHeader? {
      PadKept(r.cap, r.mem, pc, mem');
    }
    match pc.stage
    case WrapHeader(j) => HeaderFieldsKept(r.mem, mem', wrapAt, 0, 0, WRAP_FLAG, 0, j);
    case RecordHeader(j) => HeaderFieldsKept(r.mem, mem', at, |q.payload|, q.typ, 0, 0, j);
    case Copy(k) => RecordBytesKept(r.mem, mem', at, q, 0, k);
    case Turn => RecordBytesKept(r.mem, mem', at, q, 0, |q.payload|);
    case Bumped(_) => RecordBytesKept(r.mem, mem', at, q, 0, |q.payload|);
    case Sequenced(n) => RecordBytesKept(r.mem, mem', at, q, n, |q.payload|);
  }

  lemma PadKept(cap: nat, mem: seq<byte>, pc: Producer, mem': seq<byte>)
    requires cap > 0 && pc.InFlight? && PadDone(cap, mem, pc)
    requires pc.pad > 0 ==> SameOn(mem, mem', Pos(pc.start, cap), Pos(pc.start, cap) + pc.pad)
    ensures PadDone(cap, mem', pc)
  {}

  /** The frame of producer `p`'s reservation that its next store goes to. */
  function TargetIndex(pc: Producer): nat
    requires pc.InFlight?
  {
    if pc.stage.WrapHeader? then pc.first else RecordIndex(pc)
  }

  /** A store goes into a frame of the producer's own reservation. */
  lemma StoreInTarget(r: Ring, p: nat, pc: Producer)
    requires RingInv(r) && Storing(pc) && InLog(r.log, p, pc) && StageMem(r.cap, r.mem, pc)
    ensures TargetIndex(pc) < |r.log| && r.log[TargetIndex(pc)].owner == p
    ensures pc.first <= TargetIndex(pc)
    ensures var f := r.log[TargetIndex(pc)];
            && Pos(f.lo, r.cap) <= StoreAt(r.cap, pc)
            && StoreAt(r.cap, pc) + |StoreBytes(pc)| <= Pos(f.lo, r.cap) + Len(f)
  {
    RecordPosAgrees(r, p, pc);
  }

  /** A store by `p` does not touch what another producer in flight has written. */
  lemma OthersKept(r: Ring, p: nat, pc: Producer, p': nat, pc': Producer)
    requires RingInv(r) && p != p'
    requires Storing(pc) && FlightOK(r, p, pc)
    requires pc'.InFlight? && FlightOK(r, p', pc')
    ensures StoreAt(r.cap, pc) + |StoreBytes(pc)| <= |r.mem|
    ensures StageMem(r.cap, Write(r.mem, StoreAt(r.cap, pc), StoreBytes(pc)), pc')
  {
    var j, a, bs := TargetIndex(pc), StoreAt(r.cap, pc), StoreBytes(pc);
    StoreInTarget(r, p, pc);
    StoreInFrame(r, j, a, bs, RecordIndex(pc'));
    RecordPosAgrees(r, p', pc');
    if pc'.pad > 0 {
      StoreInFrame(r, j, a, bs, pc'.first);
    }
    StageKept(r, p', pc', Write(r.mem, a, bs));
  }

  /** The effect of a store on the producer's own stage. */
  lemma OwnStore(cap: nat, mem: seq<byte>, pc: Producer, mem': seq<byte>)
    requires cap > 0 && Storing(pc) && StageMem(cap, mem, pc)
    requires RecordPos(cap, pc) + RecordSize(|pc.req.payload|) <= |mem|
    requires pc.pad > 0 ==> Pos(pc.start, cap) + pc.pad <= |mem|
    requires StoreAt(cap, pc) + |StoreBytes(pc)| <= |mem|
    requires mem' == Write(mem, StoreAt(cap, pc), StoreBytes(pc))
    requires pc.pad > 0 && !pc.stage.WrapHeader? ==> SameOn(mem, mem', Pos(pc.start, cap), Pos(pc.start, cap) + pc.pad)
    ensures StageMem(cap, mem', AfterStore(pc))
  {
    if pc.stage.WrapHeader? {
      OwnWrapStore(cap, mem, pc, mem');
    } else {
      PadKept(cap, mem, pc, mem');
      match pc.stage
      case RecordHeader(_) => OwnHeaderStore(cap, mem, pc, mem');
      case Copy(_) => OwnPayloadStore(cap, mem, pc, mem');
      case Bumped(_) => OwnSequenceStore(cap, mem, pc, mem');
    }
  }

  lemma OwnHeaderStore(cap: nat, mem: seq<byte>, pc: Producer, mem': seq<byte>)
    requires cap > 0 && Storing(pc) && StageMem(cap, mem, pc) && pc.stage.RecordHeader?
    requires RecordPos(cap, pc) + RecordSize(|pc.req.payload|) <= |mem|
    requires mem' == Write(mem, StoreAt(cap, pc), StoreBytes(pc))
    requires PadDone(cap, mem', pc)
    ensures StageMem(cap, mem', AfterStore(pc))
  {
    hide HeaderFields, RecordBytes, Holds;
    HeaderFieldStored(mem, RecordPos(cap, pc), |pc.req.payload|, pc.req.typ, 0, 0, pc.stage.j);
    if pc.stage.j == 3 { HeaderComplete(mem', RecordPos(cap, pc), pc.req, 0); }
  }

  lemma OwnPayloadStore(cap: nat, mem: seq<byte>, pc: Producer, mem': seq<byte>)
    requires cap > 0 && Storing(pc) && StageMem(cap, mem, pc) && pc.stage.Copy?
    requires RecordPos(cap, pc) + RecordSize(|pc.req.payload|) <= |mem|
    requires mem' == Write(mem, StoreAt(cap, pc), StoreBytes(pc))
    requires PadDone(cap, mem', pc)
    ensures StageMem(cap, mem', AfterStore(pc))
  {
    hide HeaderFields, RecordBytes, Holds;
    PayloadByteStored(mem, RecordPos(cap, pc), pc.req, 0, pc.stage.k);
  }

  lemma OwnSequenceStore(cap: nat, mem: seq<byte>, pc: Producer, mem': seq<byte>)
    requires cap > 0 && Storing(pc) && StageMem(cap, mem, pc) && pc.stage.Bumped?
    requires RecordPos(cap, pc) + RecordSize(|pc.req.payload|) <= |mem|
    requires mem' == Write(mem, StoreAt(cap, pc), StoreBytes(pc))
    requires PadDone(cap, mem', pc)
    ensures StageMem(cap, mem', AfterStore(pc))
  {
    hide HeaderFields, RecordBytes, Holds;
    SequenceStored(mem, RecordPos(cap, pc), pc.req, 0, pc.stage.n);
  }

  lemma OwnWrapStore(cap: nat, mem: seq<byte>, pc: Producer, mem': seq<byte>)
    requires cap > 0 && Storing(pc) && StageMem(cap, mem, pc) && pc.stage.WrapHeader?
    requires Pos(pc.start, cap) + pc.pad <= |mem|
    requires mem' == Write(mem, StoreAt(cap, pc), StoreBytes(pc))
    ensures StageMem(cap, mem', AfterStore(pc))
  {
    HeaderFieldStored(mem, Pos(pc.start, cap), 0, 0, WRAP_FLAG, 0, pc.stage.j);
    if pc.stage.j == 3 {
      assert Holds(mem', FieldAt(Pos(pc.start, cap), 2), FieldBytes(0, 0, WRAP_FLAG, 0, 2));
    }
  }

  /** Replacing one producer's state keeps ownership if its reservation stays. */
  lemma OwnedKept(r: Ring, prods: seq<Producer>, r': Ring, p: nat, pc': Producer)
    requires p < |prods| && Owned(r, prods) && r'.log == r.log && r'.iTp == r.iTp
    requires prods[p].InFlight? ==>
               pc'.InFlight? && pc'.first == prods[p].first && pc'.pad == prods[p].pad
    ensures Owned(r', prods[p := pc'])
  {}

  lemma CounterKept(r: Ring, prods: seq<Producer>, r': Ring, p: nat, pc': Producer)
    requires r.iTp <= |r.log| && p < |prods| && CounterOK(r, prods)
    requires r'.log == r.log && r'.iTp == r.iTp && r'.sq == r.sq
    requires HasNumber(prods[p]) == HasNumber(pc')
    ensures CounterOK(r', prods[p := pc'])
  {}

  /** Steps that only move a producer's own program counter. */
  lemma LocalKeeps(r: Ring, prods: seq<Producer>, p: nat, pc': Producer, e: Event)
    requires WriterInv(r, prods) && p < |prods|
    requires ProducerStep(r, p, prods[p], r, pc', e) && LocalStep(prods[p], pc')
    ensures WriterInv(r, prods[p := pc'])
  {
    OwnedKept(r, prods, r, p, pc');
    CounterKept(r, prods, r, p, pc');
    LocalKeepsProducers(r, prods, p, pc', e);
  }

  predicate LocalStep(pc: Producer, pc': Producer) {
    if pc.InFlight? then pc.stage.Copy? && !Storing(pc) else !pc'.InFlight?
  }

  lemma LocalKeepsProducers(r: Ring, prods: seq<Producer>, p: nat, pc': Producer, e: Event)
    requires RingInv(r) && r.tr == Off(r.log, |r.log|) && AllProducers(r, prods) && p < |prods|
    requires ProducerStep(r, p, prods[p], r, pc', e) && LocalStep(prods[p], pc')
    ensures AllProducers(r, prods[p := pc'])
  {
    assert ProducerOK(r, p, prods[p]);
    LocalKeepsOne(r, p, prods[p], pc', e);
  }

  lemma LocalKeepsOne(r: Ring, p: nat, pc: Producer, pc': Producer, e: Event)
    requires RingInv(r) && r.tr == Off(r.log, |r.log|) && ProducerOK(r, p, pc)
    requires ProducerStep(r, p, pc, r, pc', e) && LocalStep(pc, pc')
    ensures ProducerOK(r, p, pc')
  {
    if pc.InFlight? {
      TurnTaken(r, p, pc, pc');
    } else {
      OffMono(r.cap, r.log, r.iHp, |r.log|);
    }
  }

  /** Seeing `tail_publish` at one's own start means that it is one's turn. */
  lemma TurnTaken(r: Ring, p: nat, pc: Producer, pc': Producer)
    requires RingInv(r) && pc.InFlight? && FlightOK(r, p, pc) && pc.stage.Copy? && !Storing(pc)
    requires pc' == if r.tp == pc.start then pc.(stage := Turn) else pc
    ensures pc'.InFlight? && FlightOK(r, p, pc')
  {
    if r.tp == pc.start {
      AtTailFirst(r, p, pc);
      hide RingInv;
      TakeTurn(r, p, pc);
    }
  }

  lemma TakeTurn(r: Ring, p: nat, pc: Producer)
    requires r.cap > 0 && pc.InFlight? && FlightOK(r, p, pc) && pc.stage.Copy? && !Storing(pc) && pc.first == r.iTp
    ensures FlightOK(r, p, pc.(stage := Turn))
  {
    hide HeaderFields, Holds;
  }

  lemma AtTailFirst(r: Ring, p: nat, pc: Producer)
    requires RingInv(r) && pc.InFlight? && InLog(r.log, p, pc) && r.iTp <= pc.first && r.tp == pc.start
    ensures pc.first == r.iTp
  {
    StartOffset(r, p, pc);
    if r.iTp < pc.first {
      OffMono(r.cap, r.log, r.iTp, pc.first);
      assert false;
    }
  }

  lemma StartOffset(r: Ring, p: nat, pc: Producer)
    requires RingInv(r) && pc.InFlight? && InLog(r.log, p, pc)
    ensures pc.first < |r.log| && pc.start == Off(r.log, pc.first)
    ensures PublishTo(pc) == Off(r.log, RecordIndex(pc) + 1)
  {}

  /** A store into the ring. */
  lemma StoreKeeps(r: Ring, prods: seq<Producer>, p: nat, r': Ring)
    requires WriterInv(r, prods) && p < |prods| && Storing(prods[p])
    requires StoreStep(r, StoreAt(r.cap, prods[p]), StoreBytes(prods[p]), r')
    ensures WriterInv(r', prods[p := AfterStore(prods[p])])
  {
    hide RingInv, AllProducers, Owned, CounterOK, FlightOK, DenseOrds, Paired;
    var pc := prods[p];
    FlightOf(r, prods, p);
    WriterFacts(r, prods);
    StoreKeepsShared(r, p, pc, r');
    OwnedKept(r, prods, r', p, AfterStore(pc));
    CounterKept(r, prods, r', p, AfterStore(pc));
    StoreKeepsProducers(r, prods, p, r');
  }

  lemma StoreKeepsShared(r: Ring, p: nat, pc: Producer, r': Ring)
    requires RingInv(r) && Storing(pc) && FlightOK(r, p, pc)
    requires StoreStep(r, StoreAt(r.cap, pc), StoreBytes(pc), r')
    ensures RingInv(r')
  {
    StoreInTarget(r, p, pc);
    StoreKeepsRing(r, TargetIndex(pc), StoreAt(r.cap, pc), StoreBytes(pc));
  }

  lemma StoreKeepsProducers(r: Ring, prods: seq<Producer>, p: nat, r': Ring)
    requires RingInv(r) && AllProducers(r, prods) && p < |prods| && Storing(prods[p])
    requires StoreStep(r, StoreAt(r.cap, prods[p]), StoreBytes(prods[p]), r')
    ensures AllProducers(r', prods[p := AfterStore(prods[p])])
  {
    var prods' := prods[p := AfterStore(prods[p])];
    forall i | 0 <= i < |prods'|
      ensures ProducerOK(r', i, prods'[i])
    {
      StoreKeepsOne(r, prods, p, r', i);
    }
  }

  lemma StoreKeepsOne(r: Ring, prods: seq<Producer>, p: nat, r': Ring, i: nat)
    requires RingInv(r) && AllProducers(r, prods) && p < |prods| && Storing(prods[p])
    requires StoreStep(r, StoreAt(r.cap, prods[p]), StoreBytes(prods[p]), r')
    requires i < |prods|
    ensures ProducerOK(r', i, prods[p := AfterStore(prods[p])][i])
  {
    assert ProducerOK(r, p, prods[p]) && ProducerOK(r, i, prods[i]);
    if i == p {
      OwnFlightKept(r, p, prods[p], r');
    } else if prods[i].InFlight? {
      OthersKept(r, p, prods[p], i, prods[i]);
    }
  }

  lemma OwnFlightKept(r: Ring, p: nat, pc: Producer, r': Ring)
    requires RingInv(r) && Storing(pc) && FlightOK(r, p, pc)
    requires StoreStep(r, StoreAt(r.cap, pc), StoreBytes(pc), r')
    ensures FlightOK(r', p, AfterStore(pc))
  {
    assert r.cap > 0;
    OwnStageKept(r, p, pc, r'.mem);
    hide RingInv;
    StoredFlight(r, p, pc, r'.mem);
  }

  lemma StoredFlight(r: Ring, p: nat, pc: Producer, mem': seq<byte>)
    requires r.cap > 0 && Storing(pc) && FlightOK(r, p, pc) && StageMem(r.cap, mem', AfterStore(pc))
    ensures FlightOK(r.(mem := mem'), p, AfterStore(pc))
  {
    hide StageMem, StoreAt, StoreBytes;
  }

  lemma OwnStageKept(r: Ring, p: nat, pc: Producer, mem': seq<byte>)
    requires RingInv(r) && Storing(pc) && r.iTp <= pc.first && InLog(r.log, p, pc) && StageMem(r.cap, r.mem, pc)
    requires StoreAt(r.cap, pc) + |StoreBytes(pc)| <= |r.mem|
    requires mem' == Write(r.mem, StoreAt(r.cap, pc), StoreBytes(pc))
    ensures StageMem(r.cap, mem', AfterStore(pc))
  {
    RecordPosAgrees(r, p, pc);
    if pc.pad > 0 && !pc.stage.WrapHeader? {
      StoreInTarget(r, p, pc);
      StoreInFrame(r, RecordIndex(pc), StoreAt(r.cap, pc), StoreBytes(pc), pc.first);
    }
    OwnStore(r.cap, r.mem, pc, mem');
  }

  /** The turn to publish belongs to one producer only. */
  lemma TurnUnique(r: Ring, p: nat, pc: Producer, i: nat, pc': Producer)
    requires RingInv(r) && i != p
    requires pc.InFlight? && FlightOK(r, p, pc) && pc.first == r.iTp
    requires pc'.InFlight? && FlightOK(r, i, pc')
    ensures RecordIndex(pc) < pc'.first && !HasTurn(pc')
  {}

  /** Taking the next sequence number. */
  lemma BumpKeeps(r: Ring, prods: seq<Producer>, p: nat, r': Ring, pc': Producer)
    requires WriterInv(r, prods) && p < |prods| && prods[p].InFlight? && prods[p].stage.Turn?
    requires r' == r.(sq := r.sq + 1) && pc' == prods[p].(stage := Bumped(r.sq + 1))
    ensures WriterInv(r', prods[p := pc'])
  {
    OwnedKept(r, prods, r', p, pc');
    assert ProducerOK(r, p, prods[p]);
    assert r.log[r.iTp].owner == p;
    var prods' := prods[p := pc'];
    forall i | 0 <= i < |prods'|
      ensures ProducerOK(r', i, prods'[i])
    {
      BumpKeepsOne(r, prods, p, r', pc', i);
    }
  }

  lemma BumpKeepsOne(r: Ring, prods: seq<Producer>, p: nat, r': Ring, pc': Producer, i: nat)
    requires WriterInv(r, prods) && p < |prods| && prods[p].InFlight? && prods[p].stage.Turn?
    requires r' == r.(sq := r.sq + 1) && pc' == prods[p].(stage := Bumped(r.sq + 1))
    requires i < |prods|
    ensures ProducerOK(r', i, prods[p := pc'][i])
  {
    assert ProducerOK(r, p, prods[p]) && ProducerOK(r, i, prods[i]);
    hide WriterInv, StageMem, RingInv, InLog;
    if i == p {
      TurnOrd(r, prods, p);
      BumpOwn(r, p, prods[p]);
    } else {
      WriterFacts(r, prods);
      if prods[i].InFlight? {
        TurnUnique(r, p, prods[p], i, prods[i]);
      }
      BumpOther(r, i, prods[i]);
    }
  }

  lemma BumpOwn(r: Ring, p: nat, pc: Producer)
    requires r.cap > 0 && pc.InFlight? && pc.stage.Turn? && FlightOK(r, p, pc) && r.sq == r.log[RecordIndex(pc)].ord
    ensures FlightOK(r.(sq := r.sq + 1), p, pc.(stage := Bumped(r.sq + 1)))
  {
    hide RecordBytes, Holds;
  }

  lemma BumpOther(r: Ring, i: nat, pc: Producer)
    requires r.cap > 0 && ProducerOK(r, i, pc) && !HasNumber(pc)
    ensures ProducerOK(r.(sq := r.sq + 1), i, pc)
  {
    hide StageMem, InLog, RecordSize;
  }

  /** The record whose turn it is gets the next number. */
  lemma TurnOrd(r: Ring, prods: seq<Producer>, p: nat)
    requires WriterInv(r, prods) && p < |prods| && prods[p].InFlight?
    requires FlightOK(r, p, prods[p]) && prods[p].first == r.iTp
    ensures r.log[RecordIndex(prods[p])].ord == OrdAt(r.log, r.iTp)
    ensures !HasNumber(prods[p]) ==> r.sq == r.log[RecordIndex(prods[p])].ord
  {}

  // ---- Publication -----------------------------------------------------------------------

  predicate Publishing(r: Ring, prods: seq<Producer>, p: nat, r': Ring) {
    && p < |prods| && prods[p].InFlight? && prods[p].stage.Sequenced?
    && r' == r.(tp := PublishTo(prods[p]), iTp := RecordIndex(prods[p]) + 1)
  }

  lemma PublishKeeps(r: Ring, prods: seq<Producer>, p: nat, r': Ring)
    requires WriterInv(r, prods) && Publishing(r, prods, p, r')
    ensures WriterInv(r', prods[p := Idle])
  {
    var pc := prods[p];
    assert FlightOK(r, p, pc) by { assert ProducerOK(r, p, pc); }
    assert Paired(r.log, r'.iTp) by { assert InLog(r.log, p, pc); }
    PublishKeepsShared(r, p, pc, r');
    PublishKeepsProducers(r, prods, p, r');
    PublishKeepsTurns(r, prods, p, r');
  }

  lemma PublishKeepsShared(r: Ring, p: nat, pc: Producer, r': Ring)
    requires RingInv(r) && pc.InFlight? && FlightOK(r, p, pc) && pc.stage.Sequenced?
    requires r' == r.(tp := PublishTo(pc), iTp := RecordIndex(pc) + 1)
    ensures RingInv(r') && r.tp < r'.tp && r.iTp < r'.iTp <= |r.log|
    ensures Queue(r') == Queue(r) + [Message(pc.req.typ, pc.req.payload, pc.stage.n % TWO64)]
  {
    StartOffset(r, p, pc);
    OffMono(r.cap, r.log, r.iTp, RecordIndex(pc) + 1);
    PublishCommitted(r, p, pc, r');
    PublishQueue(r, p, pc, r.iHp);
  }

  lemma PublishCommitted(r: Ring, p: nat, pc: Producer, r': Ring)
    requires RingInv(r) && pc.InFlight? && FlightOK(r, p, pc) && pc.stage.Sequenced?
    requires r' == r.(tp := PublishTo(pc), iTp := RecordIndex(pc) + 1)
    ensures Committed(r')
  {
    PublishStored(r, p, pc);
    forall i | r'.iHp <= i < r'.iTp
      ensures Stored(r'.cap, r'.mem, r'.log[i])
    {
      assert i < r.iTp || i == pc.first || i == RecordIndex(pc);
    }
  }

  /** What is published is complete. */
  lemma PublishStored(r: Ring, p: nat, pc: Producer)
    requires RingInv(r) && pc.InFlight? && FlightOK(r, p, pc) && pc.stage.Sequenced?
    ensures pc.first < |r.log| && Stored(r.cap, r.mem, r.log[pc.first])
    ensures Stored(r.cap, r.mem, r.log[RecordIndex(pc)])
  {
    RecordPosAgrees(r, p, pc);
    hide RingInv, StageMem;
    RecordStored(r.cap, r.mem, r.log, p, pc);
    if pc.pad > 0 {
      PadStored(r.cap, r.mem, r.log, p, pc);
    }
  }

  lemma RecordStored(cap: nat, mem: seq<byte>, log: seq<Frame>, p: nat, pc: Producer)
    requires cap > 0 && pc.InFlight? && pc.stage.Sequenced? && InLog(log, p, pc) && StageMem(cap, mem, pc)
    requires RecordPos(cap, pc) == Pos(pc.start + pc.pad, cap) && pc.stage.n == log[RecordIndex(pc)].ord + 1
    ensures Stored(cap, mem, log[RecordIndex(pc)])
  {
    hide RecordBytes, PadDone;
    var f := log[RecordIndex(pc)];
    assert Request(f.typ, f.payload) == pc.req;
  }

  lemma PadStored(cap: nat, mem: seq<byte>, log: seq<Frame>, p: nat, pc: Producer)
    requires cap > 0 && pc.InFlight? && pc.stage.Sequenced? && InLog(log, p, pc) && StageMem(cap, mem, pc)
    requires pc.pad > 0
    ensures pc.first < |log| && Stored(cap, mem, log[pc.first])
  {
    hide RecordBytes, Holds;
  }

  lemma PublishQueue(r: Ring, p: nat, pc: Producer, from: nat)
    requires r.cap > 0 && from <= r.iTp <= |r.log| && pc.InFlight? && FlightOK(r, p, pc) && pc.stage.Sequenced?
    ensures RecordIndex(pc) < |r.log|
    ensures Messages(r.log, from, RecordIndex(pc) + 1)
         == Messages(r.log, from, r.iTp) + [Message(pc.req.typ, pc.req.payload, pc.stage.n % TWO64)]
  {}

  lemma PublishKeepsProducers(r: Ring, prods: seq<Producer>, p: nat, r': Ring)
    requires RingInv(r) && AllProducers(r, prods) && Publishing(r, prods, p, r')
    ensures AllProducers(r', prods[p := Idle])
  {
    var prods' := prods[p := Idle];
    forall i | 0 <= i < |prods'|
      ensures ProducerOK(r', i, prods'[i])
    {
      assert ProducerOK(r, p, prods[p]) && ProducerOK(r, i, prods[i]);
      if i != p && prods[i].InFlight? {
        TurnUnique(r, p, prods[p], i, prods[i]);
      }
    }
  }

  lemma PublishKeepsTurns(r: Ring, prods: seq<Producer>, p: nat, r': Ring)
    requires RingInv(r) && AllProducers(r, prods) && Owned(r, prods) && Publishing(r, prods, p, r')
    requires FlightOK(r, p, prods[p])
    ensures r'.iTp <= |r.log| && CounterOK(r', prods[p := Idle])
    ensures Owned(r', prods[p := Idle])
  {
    assert r.cap > 0;
    hide RingInv, AllProducers, Owned, StageMem;
    PublishKeepsOwned(r, prods, p, r');
    if r'.iTp < |r.log| {
      NextHasNoNumber(r, prods, p, r'.iTp);
    }
    PublishCounts(r, prods, p, r');
  }

  /** After a publication the counter stands at the number of published records. */
  lemma PublishCounts(r: Ring, prods: seq<Producer>, p: nat, r': Ring)
    requires r.cap > 0 && Publishing(r, prods, p, r') && FlightOK(r, p, prods[p])
    requires r'.iTp < |r.log| ==> r.log[r'.iTp].owner < |prods| && r.log[r'.iTp].owner != p && !HasNumber(prods[r.log[r'.iTp].owner])
    ensures r'.iTp <= |r.log| && CounterOK(r', prods[p := Idle])
  {
    hide StageMem;
  }

  lemma PublishKeepsOwned(r: Ring, prods: seq<Producer>, p: nat, r': Ring)
    requires r.cap > 0 && Owned(r, prods) && Publishing(r, prods, p, r') && FlightOK(r, p, prods[p])
    ensures Owned(r', prods[p := Idle])
  {}

  lemma NextHasNoNumber(r: Ring, prods: seq<Producer>, p: nat, i: nat)
    requires RingInv(r) && AllProducers(r, prods) && Owned(r, prods)
    requires p < |prods| && prods[p].InFlight? && FlightOK(r, p, prods[p]) && prods[p].first == r.iTp
    requires RecordIndex(prods[p]) < i < |r.log|
    ensures r.log[i].owner < |prods| && r.log[i].owner != p && !HasNumber(prods[r.log[i].owner])
  {
    var o := r.log[i].owner;
    assert OwnsFrame(prods, o, i);
    assert ProducerOK(r, o, prods[o]);
    TurnUnique(r, p, prods[p], o, prods[o]);
  }

  // ---- Reservation -----------------------------------------------------------------------

  predicate Reserving(r: Ring, prods: seq<Producer>, p: nat, place: Placement, r': Ring, pc': Producer) {
    && r.cap > 0 && p < |prods| && prods[p].Reserve? && r.tr == prods[p].t
    && place == Place(r.cap, prods[p].h, prods[p].t, |prods[p].req.payload|) && place.Placed?
    && r' == r.(tr := r.tr + place.pad + RecordSize(|prods[p].req.payload|),
                log := r.log + NewFrames(r.tr, place.pad, prods[p].req, OrdAt(r.log, |r.log|), p))
    && pc' == InFlight(prods[p].req, r.tr, place.pad, |r.log|, FirstStage(place))
  }

  lemma ReserveKeeps(r: Ring, prods: seq<Producer>, p: nat, place: Placement, r': Ring, pc': Producer)
    requires WriterInv(r, prods) && Reserving(r, prods, p, place, r', pc')
    ensures WriterInv(r', prods[p := pc'])
    ensures Queue(r') == Queue(r)
  {
    assert ProducerOK(r, p, prods[p]);
    MessagesPrefix(r.log, r'.log, r.iHp, r.iTp);
    ReserveKeepsLog(r, prods, p, place, r', pc');
    ReserveKeepsProducers(r, prods, p, place, r', pc');
    ReserveKeepsOwned(r, prods, p, place, r', pc');
  }

  /** The new frames fit behind the old ones and stay inside the window. */
  lemma ReserveKeepsLog(r: Ring, prods: seq<Producer>, p: nat, place: Placement, r': Ring, pc': Producer)
    requires RingInv(r) && r.tr == Off(r.log, |r.log|) && DenseOrds(r.log) && Paired(r.log, r.iTp)
    requires Reserving(r, prods, p, place, r', pc') && ProducerOK(r, p, prods[p])
    ensures RingInv(r') && r'.tr == Off(r'.log, |r'.log|) && DenseOrds(r'.log) && Paired(r'.log, r'.iTp)
  {
    PlacedFits(r.cap, prods[p].h, r.tr, |prods[p].req.payload|);
    AppendReservation(r, prods[p].req, place.pad, p);
    AppendOrds(r.log, r.tr, place.pad, prods[p].req, p);
  }

  /** An accepted placement stays within one capacity of the head it was computed from. */
  lemma PlacedFits(cap: nat, h: nat, t: nat, n: nat)
    requires cap > 0 && h <= t && Place(cap, h, t, n).Placed?
    ensures t + Place(cap, h, t, n).pad + RecordSize(n) <= h + cap
    ensures Place(cap, h, t, n).pad == if cap - Pos(t, cap) < RecordSize(n) then cap - Pos(t, cap) else 0
  {}

  lemma AppendReservation(r: Ring, q: Request, pad: nat, p: nat)
    requires RingInv(r) && r.tr == Off(r.log, |r.log|)
    requires ValidRequest(q) && RecordSize(|q.payload|) <= r.cap
    requires r.tr + pad + RecordSize(|q.payload|) <= r.hp + r.cap
    requires pad == if r.cap - Pos(r.tr, r.cap) < RecordSize(|q.payload|) then r.cap - Pos(r.tr, r.cap) else 0
    ensures var log' := r.log + NewFrames(r.tr, pad, q, OrdAt(r.log, |r.log|), p);
            && RingInv(r.(log := log'))
            && Off(log', |log'|) == r.tr + pad + RecordSize(|q.payload|)
  {
    assert r.cap > 0;
    var ord := OrdAt(r.log, |r.log|);
    var gap, rec := Pad(r.tr, pad, ord, p), Rec(r.tr + pad, q.typ, q.payload, ord, p);
    if pad > 0 {
      PosWrap(r.tr, pad, r.cap);
    }
    assert FrameOK(r.cap, rec) && (pad > 0 ==> FrameOK(r.cap, gap));
    hide *;
    if pad > 0 {
      AppendTwo(r, gap, rec);
    } else {
      AppendFrame(r, rec);
    }
    NewFramesAre(r.tr, pad, q, ord, p);
    LastOffset(r.log + NewFrames(r.tr, pad, q, ord, p), rec);
    RecordEnds(rec);
  }

  lemma AppendTwo(r: Ring, f: Frame, g: Frame)
    requires RingInv(r) && FrameOK(r.cap, f) && FrameOK(r.cap, g)
    requires f.lo == Off(r.log, |r.log|) && g.lo == Hi(f) && Hi(g) <= r.hp + r.cap
    ensures RingInv(r.(log := r.log + [f, g]))
  {
    assert r.cap > 0 && Hi(f) <= Hi(g);
    hide RingInv, FrameOK;
    AppendFrame(r, f);
    AppendFrame(r.(log := r.log + [f]), g);
    assert r.log + [f] + [g] == r.log + [f, g];
  }

  lemma NewFramesAre(t: nat, pad: nat, q: Request, ord: nat, p: nat)
    ensures var rec := Rec(t + pad, q.typ, q.payload, ord, p);
      NewFrames(t, pad, q, ord, p) == if pad > 0 then [Pad(t, pad, ord, p), rec] else [rec]
  {}

  lemma LastOffset(log: seq<Frame>, f: Frame)
    requires |log| > 0 && log[|log| - 1] == f
    ensures Off(log, |log|) == Hi(f)
  {}

  lemma RecordEnds(f: Frame)
    requires f.Rec?
    ensures Hi(f) == f.lo + RecordSize(|f.payload|)
  {}

  lemma AppendOrds(log: seq<Frame>, t: nat, pad: nat, q: Request, p: nat)
    requires DenseOrds(log)
    ensures DenseOrds(log + NewFrames(t, pad, q, OrdAt(log, |log|), p))
  {
    var ord := OrdAt(log, |log|);
    var rec := Rec(t + pad, q.typ, q.payload, ord, p);
    if pad > 0 {
      AppendOrd(log, Pad(t, pad, ord, p));
      AppendOrd(log + [Pad(t, pad, ord, p)], rec);
      assert log + [Pad(t, pad, ord, p)] + [rec] == log + NewFrames(t, pad, q, ord, p);
    } else {
      AppendOrd(log, rec);
      assert log + [rec] == log + NewFrames(t, pad, q, ord, p);
    }
  }

  lemma ReserveKeepsProducers(r: Ring, prods: seq<Producer>, p: nat, place: Placement, r': Ring, pc': Producer)
    requires RingInv(r) && AllProducers(r, prods) && Reserving(r, prods, p, place, r', pc')
    ensures AllProducers(r', prods[p := pc'])
  {
    var prods' := prods[p := pc'];
    forall i | 0 <= i < |prods'|
      ensures ProducerOK(r', i, prods'[i])
    {
      assert ProducerOK(r, i, prods[i]);
      if i == p {
        FreshFlight(r, prods, p, place, r', pc');
      } else if prods[i].InFlight? {
        assert InLog(r'.log, i, prods[i]);
      }
    }
  }

  lemma FreshFlight(r: Ring, prods: seq<Producer>, p: nat, place: Placement, r': Ring, pc': Producer)
    requires RingInv(r) && Reserving(r, prods, p, place, r', pc')
    ensures FlightOK(r', p, pc')
  {}

  lemma ReserveKeepsOwned(r: Ring, prods: seq<Producer>, p: nat, place: Placement, r': Ring, pc': Producer)
    requires r.iTp <= |r.log| && Owned(r, prods) && CounterOK(r, prods)
    requires Reserving(r, prods, p, place, r', pc')
    ensures Owned(r', prods[p := pc']) && CounterOK(r', prods[p := pc'])
  {}

  // ---- Main results ------------------------------------------------------------------------

  /** Every step of every producer keeps the invariant. */
  lemma ProducerKeeps(r: Ring, prods: seq<Producer>, p: nat, r': Ring, pc': Producer, e: Event)
    requires WriterInv(r, prods) && p < |prods|
    requires ProducerStep(r, p, prods[p], r', pc', e)
    ensures WriterInv(r', prods[p := pc'])
  {
    var pc := prods[p];
    if pc.InFlight? {
      FlightKeeps(r, prods, p, r', pc', e);
    } else if pc.Reserve? && pc'.InFlight? {
      ReserveKeeps(r, prods, p, Place(r.cap, pc.h, pc.t, |pc.req.payload|), r', pc');
    } else {
      LocalKeeps(r, prods, p, pc', e);
    }
  }

  lemma FlightKeeps(r: Ring, prods: seq<Producer>, p: nat, r': Ring, pc': Producer, e: Event)
    requires WriterInv(r, prods) && p < |prods| && prods[p].InFlight?
    requires FlightStep(r, p, prods[p], r', pc', e)
    ensures WriterInv(r', prods[p := pc'])
  {
    var pc := prods[p];
    if Storing(pc) {
      StoreKeeps(r, prods, p, r');
    } else if pc.stage.Turn? {
      BumpKeeps(r, prods, p, r', pc');
    } else if pc.stage.Sequenced? {
      PublishKeeps(r, prods, p, r');
    } else {
      assert ProducerOK(r, p, pc);
      LocalKeeps(r, prods, p, pc', e);
    }
  }

  lemma UnpublishedShape(r: Ring, p: nat, pc: Producer, r': Ring, pc': Producer, e: Event)
    requires r.cap > 0 && ProducerStep(r, p, pc, r', pc', e)
    requires pc.InFlight? ==> !pc.stage.Sequenced?
    ensures r.log <= r'.log && r'.iTp == r.iTp && r'.tp == r.tp && e == Internal
    ensures r'.cap == r.cap && r'.hp == r.hp && r'.hr == r.hr && r'.iHp == r.iHp
  {}

  lemma PublishedShape(r: Ring, p: nat, pc: Producer, r': Ring, pc': Producer, e: Event)
    requires r.cap > 0 && ProducerStep(r, p, pc, r', pc', e)
    requires pc.InFlight? && pc.stage.Sequenced?
    ensures r' == r.(tp := PublishTo(pc), iTp := RecordIndex(pc) + 1)
    ensures e == Push(p, Message(pc.req.typ, pc.req.payload, pc.stage.n % TWO64))
  {}

  lemma WriterFacts(r: Ring, prods: seq<Producer>)
    requires WriterInv(r, prods)
    ensures RingInv(r) && 0 < r.cap == |r.mem| && LogOK(r.cap, r.log)
    ensures r.iHp <= r.iTp <= |r.log| && r.hp == Off(r.log, r.iHp)
    ensures r.tp == Off(r.log, r.iTp) && r.tr == Off(r.log, |r.log|)
  {}

  lemma FlightOf(r: Ring, prods: seq<Producer>, p: nat)
    requires WriterInv(r, prods) && p < |prods| && prods[p].InFlight?
    ensures r.cap > 0 && FlightOK(r, p, prods[p])
  {}

  /** Every step appends at most the producer's own message, and does so exactly at its store to
      `tail_publish`. */
  lemma ProducerPublishes(r: Ring, prods: seq<Producer>, p: nat, r': Ring, pc': Producer, e: Event, from: nat)
    requires WriterInv(r, prods) && p < |prods| && from <= r.iTp
    requires ProducerStep(r, p, prods[p], r', pc', e)
    ensures r'.iTp <= |r'.log| && !e.Pop?
    ensures Messages(r'.log, from, r'.iTp) == Messages(r.log, from, r.iTp) + (if e.Push? then [e.pushed] else [])
  {
    hide WriterInv, ProducerStep, FlightOK, InLog, Messages;
    WriterFacts(r, prods);
    if prods[p].InFlight? && prods[p].stage.Sequenced? {
      FlightOf(r, prods, p);
      PublishedShape(r, p, prods[p], r', pc', e);
      PublishQueue(r, p, prods[p], from);
    } else {
      UnpublishedShape(r, p, prods[p], r', pc', e);
      MessagesPrefix(r.log, r'.log, from, r.iTp);
    }
  }

  /** A producer step is a step of the queue; what was published or reserved before stays. */
  lemma ProducerFifo(r: Ring, prods: seq<Producer>, p: nat, r': Ring, pc': Producer, e: Event)
    requires WriterInv(r, prods) && p < |prods|
    requires ProducerStep(r, p, prods[p], r', pc', e)
    ensures WriterEffect(r, r')
    ensures r'.iTp <= |r'.log| && FifoStep(Queue(r), e, Queue(r'))
  {
    hide WriterInv, ProducerStep, FlightOK, InLog, Messages;
    WriterFacts(r, prods);
    ProducerPublishes(r, prods, p, r', pc', e, r.iHp);
    if prods[p].InFlight? && prods[p].stage.Sequenced? {
      FlightOf(r, prods, p);
      PublishedShape(r, p, prods[p], r', pc', e);
      PublishKeepsShared(r, p, prods[p], r');
    } else {
      UnpublishedShape(r, p, prods[p], r', pc', e);
    }
  }

  /** A producer step leaves every published frame alone. */
  lemma ProducerLeavesPublished(r: Ring, prods: seq<Producer>, p: nat, r': Ring, pc': Producer, e: Event, i: nat)
    requires WriterInv(r, prods) && p < |prods| && r.iHp <= i < r.iTp
    requires ProducerStep(r, p, prods[p], r', pc', e)
    ensures FrameSame(r, r', i)
  {
    ProducerFifo(r, prods, p, r', pc', e);
    assert ProducerOK(r, p, prods[p]);
    if Storing(prods[p]) {
      StoreInTarget(r, p, prods[p]);
      StoreInFrame(r, TargetIndex(prods[p]), StoreAt(r.cap, prods[p]), StoreBytes(prods[p]), i);
    }
  }
}
