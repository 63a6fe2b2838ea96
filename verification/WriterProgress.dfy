/** Reservations tile the unpublished region, the turn to publish always belongs to exactly one
    producer in flight, and the producers in flight can always publish everything reserved. */
module WriterProgress {
  import opened Arithmetic
  import opened Bytes
  import opened RingLayout
  import opened FrameLog
  import opened FrameLogFacts
  import opened Fifo
  import opened RingWriter
  import opened RingWriterProofs

  predicate Covers(prods: seq<Producer>, p: nat, x: nat) {
    p < |prods| && prods[p].InFlight? && prods[p].start <= x < PublishTo(prods[p])
  }

  /** Every reservation lies in the reserved and unpublished region. */
  lemma ReservationInside(r: Ring, prods: seq<Producer>, p: nat)
    requires WriterInv(r, prods) && p < |prods| && prods[p].InFlight?
    ensures r.tp <= prods[p].start < PublishTo(prods[p]) <= r.tr
  {
    hide WriterInv, LogOK;
    WriterFacts(r, prods);
    FlightOf(r, prods, p);
    StartOffset(r, p, prods[p]);
    OffMono(r.cap, r.log, r.iTp, prods[p].first);
    OffMono(r.cap, r.log, RecordIndex(prods[p]) + 1, |r.log|);
  }

  /** Every reserved and unpublished byte belongs to exactly one producer in flight. */
  lemma ReservationsTile(r: Ring, prods: seq<Producer>, x: nat)
    requires WriterInv(r, prods) && r.tp <= x < r.tr
    ensures exists p :: Covers(prods, p, x) && forall p' :: Covers(prods, p', x) ==> p' == p
  {
    var k := FrameAt(r.cap, r.log, r.iTp, |r.log|, x);
    var p := r.log[k].owner;
    OwnerCovers(r, prods, k, x);
    forall p' | Covers(prods, p', x)
      ensures p' == p
    {
      CoverOwns(r, prods, p', k, x);
    }
  }

  lemma OwnerCovers(r: Ring, prods: seq<Producer>, k: nat, x: nat)
    requires WriterInv(r, prods) && r.iTp <= k < |r.log| && r.log[k].lo <= x < Hi(r.log[k])
    ensures Covers(prods, r.log[k].owner, x)
  {
    var p := r.log[k].owner;
    assert OwnsFrame(prods, p, k);
    hide WriterInv, LogOK, StageMem;
    FlightOf(r, prods, p);
    var pc := prods[p];
    assert k == RecordIndex(pc) ==> r.log[k] == Rec(pc.start + pc.pad, pc.req.typ, pc.req.payload, r.log[k].ord, p);
    assert k != RecordIndex(pc) ==> pc.pad > 0 && k == pc.first;
  }

  lemma CoverOwns(r: Ring, prods: seq<Producer>, p: nat, k: nat, x: nat)
    requires WriterInv(r, prods) && r.iTp <= k < |r.log| && r.log[k].lo <= x < Hi(r.log[k])
    requires Covers(prods, p, x)
    ensures r.log[k].owner == p
  {
    var pc := prods[p];
    assert ProducerOK(r, p, pc);
    var k' := if x < pc.start + pc.pad then pc.first else RecordIndex(pc);
    FrameAtUnique(r.cap, r.log, k, k', x);
  }

  predicate NextInTurn(r: Ring, prods: seq<Producer>, p: nat) {
    p < |prods| && prods[p].InFlight? && prods[p].start == r.tp
  }

  /** Whenever something is reserved and unpublished, exactly one producer may publish next. */
  lemma TurnHolder(r: Ring, prods: seq<Producer>) returns (p: nat)
    requires WriterInv(r, prods) && r.tp < r.tr
    ensures NextInTurn(r, prods, p) && prods[p].first == r.iTp < |r.log| && r.log[r.iTp].owner == p
    ensures forall p' :: NextInTurn(r, prods, p') ==> p' == p
  {
    assert r.iTp < |r.log|;
    p := r.log[r.iTp].owner;
    assert OwnsFrame(prods, p, r.iTp);
    assert ProducerOK(r, p, prods[p]);
    StartOffset(r, p, prods[p]);
    forall p' | NextInTurn(r, prods, p')
      ensures p' == p
    {
      ReservationInside(r, prods, p');
      assert r.log[r.iTp].lo == Off(r.log, r.iTp);
      assert FrameOK(r.cap, r.log[r.iTp]);
      CoverOwns(r, prods, p', r.iTp, r.tp);
    }
  }

  // ---- Progress ------------------------------------------------------------------------------

  /** Number of producers that hold a reservation. */
  function InFlightCount(prods: seq<Producer>): nat {
    if prods == [] then 0
    else InFlightCount(prods[..|prods| - 1]) + if prods[|prods| - 1].InFlight? then 1 else 0
  }

  lemma {:induction false} CountUpdate(prods: seq<Producer>, p: nat, pc: Producer)
    requires p < |prods|
    ensures InFlightCount(prods[p := pc]) + (if prods[p].InFlight? then 1 else 0)
         == InFlightCount(prods) + (if pc.InFlight? then 1 else 0)
  {
    var n := |prods| - 1;
    if p < n {
      CountUpdate(prods[..n], p, pc);
      assert prods[p := pc][..n] == prods[..n][p := pc];
    } else {
      assert prods[p := pc][..n] == prods[..n];
    }
  }

  /** Each publication takes one producer out of flight. */
  lemma PublishDecreases(r: Ring, prods: seq<Producer>, p: nat, r': Ring, pc': Producer, e: Event)
    requires r.cap > 0 && p < |prods| && ProducerStep(r, p, prods[p], r', pc', e) && e.Push?
    ensures InFlightCount(prods[p := pc']) == InFlightCount(prods) - 1
  {
    CountUpdate(prods, p, pc');
  }

  /** Steps a producer in flight still has to take once it is its turn. */
  function Work(pc: Producer): nat
    requires pc.InFlight?
  {
    match pc.stage
    case WrapHeader(j) => if j < 4 then 13 - j + |pc.req.payload| else 0
    case RecordHeader(j) => if j < 4 then 9 - j + |pc.req.payload| else 0
    case Copy(k) => if k <= |pc.req.payload| then 4 + |pc.req.payload| - k else 0
    case Turn => 3
    case Bumped(_) => 2
    case Sequenced(_) => 1
  }

  /** The producer whose turn it is can always step, and each step brings it closer to publishing. */
  lemma TurnHolderMoves(r: Ring, p: nat, pc: Producer) returns (r': Ring, pc': Producer, e: Event)
    requires RingInv(r) && pc.InFlight? && FlightOK(r, p, pc) && pc.start == r.tp
    ensures FlightStep(r, p, pc, r', pc', e)
    ensures r'.log == r.log
    ensures if pc.stage.Sequenced? then pc' == Idle && r.iTp < r'.iTp
            else pc'.InFlight? && Work(pc') < Work(pc) && r'.iTp == r.iTp
  {
    e := Internal;
    if Storing(pc) {
      StoreFits(r, p, pc);
      r', pc' := r.(mem := Write(r.mem, StoreAt(r.cap, pc), StoreBytes(pc))), AfterStore(pc);
    } else {
      match pc.stage
      case Copy(_) => r', pc' := r, pc.(stage := Turn);
      case Turn => r', pc' := r.(sq := r.sq + 1), pc.(stage := Bumped(r.sq + 1));
      case Sequenced(n) =>
        r', pc' := r.(tp := PublishTo(pc), iTp := RecordIndex(pc) + 1), Idle;
        e := Push(p, Message(pc.req.typ, pc.req.payload, n % TWO64));
    }
  }

  lemma StoreFits(r: Ring, p: nat, pc: Producer)
    requires RingInv(r) && Storing(pc) && FlightOK(r, p, pc)
    ensures StoreAt(r.cap, pc) + |StoreBytes(pc)| <= |r.mem|
  {
    StoreInTarget(r, p, pc);
    assert FrameOK(r.cap, r.log[TargetIndex(pc)]);
  }

  /** A step of a producer that already holds a reservation. */
  ghost predicate FlightLink(r: Ring, prods: seq<Producer>, r': Ring, prods': seq<Producer>) {
    exists p: nat, pc': Producer, e: Event ::
      && r.cap > 0 && p < |prods| && prods[p].InFlight?
      && FlightStep(r, p, prods[p], r', pc', e)
      && prods' == prods[p := pc']
  }

  ghost predicate Path(rs: seq<Ring>, ps: seq<seq<Producer>>) {
    && |rs| == |ps| > 0
    && forall i :: 0 <= i < |rs| - 1 ==> FlightLink(rs[i], ps[i], rs[i + 1], ps[i + 1])
  }

  lemma PathCons(r: Ring, prods: seq<Producer>, rs: seq<Ring>, ps: seq<seq<Producer>>)
    requires Path(rs, ps) && FlightLink(r, prods, rs[0], ps[0])
    ensures Path([r] + rs, [prods] + ps)
  {}

  /** Steps left to the producer whose turn it is. */
  function Remaining(r: Ring, prods: seq<Producer>): nat {
    if r.iTp < |r.log| && r.log[r.iTp].owner < |prods| && prods[r.log[r.iTp].owner].InFlight?
    then Work(prods[r.log[r.iTp].owner]) else 0
  }

  lemma DrainStep(r: Ring, prods: seq<Producer>) returns (r': Ring, prods': seq<Producer>)
    requires WriterInv(r, prods) && r.iTp != |r.log|
    ensures FlightLink(r, prods, r', prods') && WriterInv(r', prods')
    ensures r'.log == r.log
    ensures r.iTp <= r'.iTp <= |r.log|
    ensures r.iTp < r'.iTp || Remaining(r', prods') < Remaining(r, prods)
  {
    assert r.tp < r.tr by { OffMono(r.cap, r.log, r.iTp, |r.log|); }
    var p := TurnHolder(r, prods);
    assert FlightOK(r, p, prods[p]) by { assert ProducerOK(r, p, prods[p]); }
    var pc', e;
    r', pc', e := TurnHolderMoves(r, p, prods[p]);
    prods' := prods[p := pc'];
    FlightKeeps(r, prods, p, r', pc', e);
  }

  /** No deadlock: from every reachable state the producers in flight can, on their own, publish
      every reservation. */
  lemma {:induction false} Drain(r: Ring, prods: seq<Producer>) returns (rs: seq<Ring>, ps: seq<seq<Producer>>)
    requires WriterInv(r, prods)
    ensures Path(rs, ps) && rs[0] == r && ps[0] == prods
    ensures WriterInv(rs[|rs| - 1], ps[|rs| - 1])
    ensures rs[|rs| - 1].log == r.log && rs[|rs| - 1].iTp == |r.log|
    decreases if r.iTp <= |r.log| then |r.log| - r.iTp else 0, Remaining(r, prods)
  {
    hide WriterInv, FlightLink, Remaining;
    if r.iTp == |r.log| {
      return [r], [prods];
    }
    var r', prods' := DrainStep(r, prods);
    rs, ps := Drain(r', prods');
    PathCons(r, prods, rs, ps);
    rs, ps := [r] + rs, [prods] + ps;
  }
}
