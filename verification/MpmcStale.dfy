/** Why fresh runs are singled out: `try_pop` loads `tail_publish` before `head_reserve`, and with
    two or more consumers the second load can pass the first. A run that does so and claims bytes
    nobody published, and the exact condition under which that happens. */
module MpmcStale {
  import opened Arithmetic
  import opened Bytes
  import opened RingLayout
  import opened FrameLog
  import opened FrameLogFacts
  import opened Fifo
  import opened RingWriter
  import opened RingWriterProofs
  import opened MpmcRing
  import opened MpmcProofs
  import opened MpmcSystem

  ghost predicate Reachable(s: System) {
    exists ss: seq<System>, actors: seq<Actor>, es: seq<Event> :: Run(ss, actors, es) && ss[|ss| - 1] == s
  }

  lemma ReachInit(s: System)
    requires Init(s)
    ensures Reachable(s)
  {
    assert Run([s], [], []);
  }

  lemma ReachStep(s: System, a: Actor, e: Event, s': System)
    requires Reachable(s) && Next(s, a, e, s')
    ensures Reachable(s')
  {
    hide Next, Init;
    var ss: seq<System>, actors: seq<Actor>, es: seq<Event> :| Run(ss, actors, es) && ss[|ss| - 1] == s;
    var ss', actors', es' := ss + [s'], actors + [a], es + [e];
    forall i | 0 <= i < |es'|
      ensures Next(ss'[i], actors'[i], es'[i], ss'[i + 1])
    {
      if i < |es| { assert Next(ss[i], actors[i], es[i], ss[i + 1]); }
    }
    assert Run(ss', actors', es');
  }

  // ---- A run that claims unpublished bytes -----------------------------------------------------------

  /** One producer pushing one empty record, and two consumers. */
  function Three(r: Ring, p: Producer, claims: seq<nat>, c0: Consumer, c1: Consumer): System {
    System(r, [p], claims, [c0, c1])
  }

  const EMPTY: Request := Request(0, [])

  lemma Move(r: Ring, p: Producer, claims: seq<nat>, c0: Consumer, c1: Consumer, r': Ring, p': Producer)
    requires Reachable(Three(r, p, claims, c0, c1)) && 0 < r.cap == |r.mem|
    requires ProducerStep(r, 0, p, r', p', Internal)
    ensures Reachable(Three(r', p', claims, c0, c1))
  {
    ReachStep(Three(r, p, claims, c0, c1), ByProducer(0), Internal, Three(r', p', claims, c0, c1));
  }

  lemma Move0(r: Ring, p: Producer, claims: seq<nat>, c0: Consumer, c1: Consumer, r': Ring, claims': seq<nat>, c0': Consumer)
    requires Reachable(Three(r, p, claims, c0, c1)) && 0 < r.cap == |r.mem|
    requires ConsumerStep(r, claims, 0, c0, r', claims', c0', Internal)
    ensures Reachable(Three(r', p, claims', c0', c1))
  {
    ReachStep(Three(r, p, claims, c0, c1), ByConsumer(0), Internal, Three(r', p, claims', c0', c1));
  }

  lemma Move1(r: Ring, p: Producer, claims: seq<nat>, c0: Consumer, c1: Consumer, r': Ring, claims': seq<nat>, c1': Consumer)
    requires Reachable(Three(r, p, claims, c0, c1)) && 0 < r.cap == |r.mem|
    requires ConsumerStep(r, claims, 1, c1, r', claims', c1', Internal)
    ensures Reachable(Three(r', p, claims', c0, c1'))
  {
    ReachStep(Three(r, p, claims, c0, c1), ByConsumer(1), Internal, Three(r', p, claims', c0, c1'));
  }

  /** Consumer 0 loads `tail_publish` on the empty ring; then the producer reserves a record. */
  lemma Reserved() returns (r: Ring)
    ensures Reachable(Three(r, InFlight(EMPTY, 0, 0, 0, RecordHeader(0)), [], LoadReserved(0), Resting))
    ensures r.cap == 24 == |r.mem| && r.hr == r.hp == r.tp == r.sq == 0 && r.iTp == 0
  {
    var r0 := Ring(24, 0, 0, 0, 0, 0, seq(24, i => 0), [], 0, 0);
    ReachInit(Three(r0, Idle, [], Resting, Resting));
    Move0(r0, Idle, [], Resting, Resting, r0, [], LoadPublished);
    Move0(r0, Idle, [], LoadPublished, Resting, r0, [], LoadReserved(0));
    var c0 := LoadReserved(0);
    Move(r0, Idle, [], c0, Resting, r0, LoadHead(EMPTY));
    Move(r0, LoadHead(EMPTY), [], c0, Resting, r0, LoadTail(EMPTY, 0));
    Move(r0, LoadTail(EMPTY, 0), [], c0, Resting, r0, Reserve(EMPTY, 0, 0));
    r := r0.(tr := 16, log := r0.log + NewFrames(0, 0, EMPTY, 0, 0));
    Move(r0, Reserve(EMPTY, 0, 0), [], c0, Resting, r, InFlight(EMPTY, 0, 0, 0, RecordHeader(0)));
  }

  /** One header field of the producer's record. */
  lemma FieldMove(r: Ring, j: nat)
    requires Reachable(Three(r, InFlight(EMPTY, 0, 0, 0, RecordHeader(j)), [], LoadReserved(0), Resting)) && j < 4
    requires r.cap == 24 == |r.mem| && HeaderFields(r.mem, 0, 0, 0, 0, 0, j)
    ensures var r' := r.(mem := Write(r.mem, FieldAt(0, j), FieldBytes(0, 0, 0, 0, j)));
            && Reachable(Three(r', InFlight(EMPTY, 0, 0, 0, if j < 3 then RecordHeader(j + 1) else Copy(0)), [], LoadReserved(0), Resting))
            && HeaderFields(r'.mem, 0, 0, 0, 0, 0, j + 1)
  {
    var r' := r.(mem := Write(r.mem, FieldAt(0, j), FieldBytes(0, 0, 0, 0, j)));
    HeaderFieldStored(r.mem, 0, 0, 0, 0, 0, j);
    Move(r, InFlight(EMPTY, 0, 0, 0, RecordHeader(j)), [], LoadReserved(0), Resting,
         r', InFlight(EMPTY, 0, 0, 0, if j < 3 then RecordHeader(j + 1) else Copy(0)));
  }

  lemma {:induction false} Fields(r: Ring, j: nat) returns (r': Ring)
    requires Reachable(Three(r, InFlight(EMPTY, 0, 0, 0, RecordHeader(j)), [], LoadReserved(0), Resting)) && j < 4
    requires r.cap == 24 == |r.mem| && HeaderFields(r.mem, 0, 0, 0, 0, 0, j)
    ensures Reachable(Three(r', InFlight(EMPTY, 0, 0, 0, Copy(0)), [], LoadReserved(0), Resting))
    ensures HeaderFields(r'.mem, 0, 0, 0, 0, 0, 4) && r' == r.(mem := r'.mem) && |r'.mem| == 24
    decreases 4 - j
  {
    hide HeaderFields;
    FieldMove(r, j);
    r' := r.(mem := Write(r.mem, FieldAt(0, j), FieldBytes(0, 0, 0, 0, j)));
    if j < 3 {
      r' := Fields(r', j + 1);
    }
  }

  lemma Numbered() returns (r: Ring)
    ensures Reachable(Three(r, InFlight(EMPTY, 0, 0, 0, Sequenced(1)), [], LoadReserved(0), Resting))
    ensures r.cap == 24 == |r.mem| && r.hr == r.hp == r.tp == 0 && HeaderFields(r.mem, 0, 0, 0, 0, 1, 4)
  {
    var ra := Reserved();
    var rb := Fields(ra, 0);
    var c0 := LoadReserved(0);
    Move(rb, InFlight(EMPTY, 0, 0, 0, Copy(0)), [], c0, Resting, rb, InFlight(EMPTY, 0, 0, 0, Turn));
    var rc := rb.(sq := 1);
    Move(rb, InFlight(EMPTY, 0, 0, 0, Turn), [], c0, Resting, rc, InFlight(EMPTY, 0, 0, 0, Bumped(1)));
    r := rc.(mem := Write(rc.mem, 8, LE(1, 8)));
    Move(rc, InFlight(EMPTY, 0, 0, 0, Bumped(1)), [], c0, Resting, r, InFlight(EMPTY, 0, 0, 0, Sequenced(1)));
    HeaderRenumbered(rc.mem, 0, 0, 0, 0, 0, 1);
    HeaderFieldStored(rc.mem, 0, 0, 0, 0, 1, 3);
  }

  /** The record is published; consumer 0 still holds the tail it loaded before. */
  lemma Published() returns (r: Ring)
    ensures Reachable(Three(r, Idle, [], LoadReserved(0), Resting))
    ensures r.cap == 24 == |r.mem| && r.hr == r.hp == 0 && r.tp == 16
    ensures HeaderFields(r.mem, 0, 0, 0, 0, 1, 4)
  {
    var rd := Numbered();
    var c0 := LoadReserved(0);
    r := rd.(tp := 16, iTp := 1);
    ReachStep(Three(rd, InFlight(EMPTY, 0, 0, 0, Sequenced(1)), [], c0, Resting), ByProducer(0),
              Push(0, Message(0, [], 1)), Three(r, Idle, [], c0, Resting));
  }

  /** Consumer 1 claims the record. */
  lemma Taken() returns (r: Ring, c1: Consumer)
    ensures Reachable(Three(r, Idle, [1], LoadReserved(0), c1))
    ensures r.cap == 24 == |r.mem| && r.hr == r.tp == 16
  {
    var ra := Published();
    var c0 := LoadReserved(0);
    Move1(ra, Idle, [], c0, Resting, ra, [], LoadPublished);
    Move1(ra, Idle, [], c0, LoadPublished, ra, [], LoadReserved(16));
    Move1(ra, Idle, [], c0, LoadReserved(16), ra, [], Inspect(16, 0));
    LoadHeader(ra.mem, 0, 0, 0, 0, 1);
    Move1(ra, Idle, [], c0, Inspect(16, 0), ra, [], SawFlags(16, 0, 0));
    Move1(ra, Idle, [], c0, SawFlags(16, 0, 0), ra, [], SawSize(16, 0, 0));
    r, c1 := ra.(hr := 16), Claimed(0, 16, 0, CopyOut(0, []));
    Move1(ra, Idle, [], c0, SawSize(16, 0, 0), r, [1], c1);
  }

  /** Two consumers can leave `head_reserve` beyond `tail_publish`: the order of the counters, and
      with it the queue, is lost. */
  lemma StaleClaimReachable() returns (s: System)
    ensures Reachable(s) && s.r.tp < s.r.hr
  {
    var ra, c1 := Taken();
    Move0(ra, Idle, [1], LoadReserved(0), c1, ra, [1], Inspect(0, 16));
    var r := ra.(hr := 24);
    assert Pos(16, 24) == 16 && Diff64(0, 16) >= 8;
    Move0(ra, Idle, [1], Inspect(0, 16), c1, r, [1, 0], Claimed(16, 24, 1, Skip(false)));
    s := Three(r, Idle, [1, 0], Claimed(16, 24, 1, Skip(false)), c1);
  }

  // ---- Exactly when it happens ------------------------------------------------------------------------

  datatype Target = GivesUp | Takes(nh: nat, task: Task)

  /** Where a consumer that runs alone from tail snapshot `t` moves `head_reserve`. */
  function SoloTarget(r: Ring, t: nat): Target
    requires 0 < r.cap == |r.mem|
  {
    var h, at := r.hr, Pos(r.hr, r.cap);
    var remaining, available := r.cap - at, Diff64(t, h);
    if h == t then GivesUp
    else if remaining < HEADER then
      if available < remaining then GivesUp else Takes(h + remaining, Skip(false))
    else if available < HEADER then GivesUp
    else if IsWrap(FlagsField(r.mem, at)) then
      if available < remaining then GivesUp else Takes(h + remaining, Skip(false))
    else
      var size := SizeField(r.mem, at);
      if RecordSize(size) > remaining || available < RecordSize(size) then GivesUp
      else Takes(h + RecordSize(size), CopyOut(size, []))
  }

  /** Steps of consumer `c` alone. */
  predicate SoloPath(r: Ring, claims: seq<nat>, c: nat, pcs: seq<Consumer>)
    requires 0 < r.cap == |r.mem|
  {
    |pcs| > 0 && forall i :: 0 <= i < |pcs| - 1 ==> ConsumerStep(r, claims, c, pcs[i], r, claims, pcs[i + 1], Internal)
  }

  /** `SoloTarget` is what the steps of `try_pop` do. */
  lemma SoloTargetIsRun(r: Ring, claims: seq<nat>, c: nat, t: nat) returns (pcs: seq<Consumer>)
    requires 0 < r.cap == |r.mem|
    ensures SoloPath(r, claims, c, pcs) && pcs[0] == LoadReserved(t)
    ensures match SoloTarget(r, t)
            case GivesUp => pcs[|pcs| - 1] == Resting
            case Takes(nh, task) =>
              ConsumerStep(r, claims, c, pcs[|pcs| - 1], r.(hr := nh), claims + [c],
                           Claimed(r.hr, nh, |claims|, task), Internal)
  {
    var h, at := r.hr, Pos(r.hr, r.cap);
    var flags := if at + HEADER <= r.cap then FlagsField(r.mem, at) else 0;
    var size := if at + HEADER <= r.cap then SizeField(r.mem, at) else 0;
    pcs := [LoadReserved(t)];
    if h == t { return pcs + [Resting]; }
    pcs := pcs + [Inspect(t, h)];
    if at + HEADER > r.cap || Diff64(t, h) < HEADER {
      return if SoloTarget(r, t).GivesUp? then pcs + [Resting] else pcs;
    }
    pcs := pcs + [SawFlags(t, h, flags)];
    if IsWrap(flags) {
      return if SoloTarget(r, t).GivesUp? then pcs + [Resting] else pcs;
    }
    pcs := pcs + [SawSize(t, h, size)];
    return if SoloTarget(r, t).GivesUp? then pcs + [Resting] else pcs;
  }

  /** The unpublished bytes at `head_reserve` look like a frame that fits. */
  predicate LooksLikeFrame(r: Ring)
    requires 0 < r.cap == |r.mem|
  {
    var at := Pos(r.hr, r.cap);
    || r.cap - at < HEADER
    || IsWrap(FlagsField(r.mem, at))
    || RecordSize(SizeField(r.mem, at)) <= r.cap - at
  }

  /** In a reachable state, a consumer that runs alone from tail snapshot `t` claims beyond
      `tail_publish` if and only if the snapshot is stale on a fully claimed ring and the bytes that
      follow happen to look like a frame; otherwise it gives up or takes exactly the next frame.
      The assumption is that fewer than 2^64 bytes pass between its two loads. */
  lemma StaleExact(s: System, t: nat)
    requires Inv(s) && t <= s.r.tp
    requires t < s.r.hr ==> s.r.hr - t + s.r.cap <= TWO64
    ensures 0 < s.r.cap == |s.r.mem|
    ensures var target := SoloTarget(s.r, t);
            var overruns := target.Takes? && target.nh > s.r.tp;
            && (overruns <==> t < s.r.hr == s.r.tp && LooksLikeFrame(s.r))
            && (!overruns && target.Takes? ==>
                  |s.claims| < s.r.iTp <= |s.r.log| && target.nh == Hi(s.r.log[|s.claims|]))
  {
    var r := s.r;
    WriterFacts(r, s.prods);
    if Stale(r, LoadReserved(t)) {
      StaleAvailable(t, r.hr, r.cap);
    } else if r.hr != t {
      FreshTarget(r, s.claims, s.cons, t);
    }
  }

  lemma StaleAvailable(t: nat, h: nat, cap: nat)
    requires t < h && h - t + cap <= TWO64
    ensures Diff64(t, h) >= cap
  {}

  lemma FreshTarget(r: Ring, claims: seq<nat>, cons: seq<Consumer>, t: nat)
    requires RingInv(r) && ConsumersInv(r, claims, cons)
    requires t <= r.tp && !Stale(r, LoadReserved(t)) && r.hr != t
    ensures |claims| < r.iTp && Hi(r.log[|claims|]) <= r.tp
    ensures SoloTarget(r, t).Takes? ==> SoloTarget(r, t).nh == Hi(r.log[|claims|])
  {
    UnclaimedLeft(r, claims, cons, LoadReserved(t));
    NextFrame(r, claims, cons);
    var i := |claims|;
    OffMono(r.cap, r.log, i + 1, r.iTp);
    if r.cap - Pos(r.hr, r.cap) < HEADER {
      ShortTail(r, i);
    } else {
      ReadFlags(r, i);
      if r.log[i].Rec? { ReadRecord(r, i); }
    }
  }
}
