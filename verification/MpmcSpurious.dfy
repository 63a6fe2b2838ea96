/** A run in which the multi-consumer `try_pop` answers false although a record is queued. */
module MpmcSpurious {
  import opened Arithmetic
  import opened RingLayout
  import opened FrameLog
  import opened FrameLogFacts
  import opened Fifo
  import opened RingWriter
  import opened PushSpec
  import opened MpmcRing
  import opened MpmcSystem
  import opened MpmcFalse
  import SW = SoloWriter

  ghost predicate Reached(s: System) {
    exists ss, actors, es :: Run(ss, actors, es) && FreshRun(ss, actors) && ss[|ss| - 1] == s
  }

  lemma ReachedInv(s: System)
    requires Reached(s)
    ensures Inv(s)
  {
    var ss, actors, es :| Run(ss, actors, es) && FreshRun(ss, actors) && ss[|ss| - 1] == s;
    RunSafe(ss, actors, es, |ss| - 1);
  }

  lemma Extend(s: System, a: Actor, e: Event, s': System)
    requires Reached(s) && Next(s, a, e, s') && Fresh(s, a)
    ensures Reached(s')
  {
    hide Next, Fresh, Init;
    var ss, actors, es :| Run(ss, actors, es) && FreshRun(ss, actors) && ss[|ss| - 1] == s;
    var ss', actors', es' := ss + [s'], actors + [a], es + [e];
    assert forall i :: 0 <= i < |ss| ==> ss'[i] == ss[i];
    assert forall i :: 0 <= i < |es| ==> es'[i] == es[i] && actors'[i] == actors[i];
    assert Run(ss', actors', es') && FreshRun(ss', actors');
  }

  /** One producer and two consumers. */
  function Three(r: Ring, p: Producer, claims: seq<nat>, c0: Consumer, c1: Consumer): System {
    System(r, [p], claims, [c0, c1])
  }

  ghost predicate Shown(r: Ring, p: Producer, claims: seq<nat>, c0: Consumer, c1: Consumer) {
    Reached(Three(r, p, claims, c0, c1))
  }

  lemma ShownFacts(r: Ring, p: Producer, claims: seq<nat>, c0: Consumer, c1: Consumer)
    requires Shown(r, p, claims, c0, c1)
    ensures 0 < r.cap == |r.mem| && RingInv(r) && WriterInv(r, [p]) && ConsumersInv(r, claims, [c0, c1])
  {
    ReachedInv(Three(r, p, claims, c0, c1));
  }

  lemma MoveProducer(r: Ring, p: Producer, claims: seq<nat>, c0: Consumer, c1: Consumer, r': Ring, p': Producer, e: Event)
    requires Shown(r, p, claims, c0, c1) && r.cap > 0 && ProducerStep(r, 0, p, r', p', e)
    ensures Shown(r', p', claims, c0, c1)
  {
    ShownFacts(r, p, claims, c0, c1);
    hide Reached, ProducerStep, RingInv, WriterInv, ConsumersInv;
    var s, s' := Three(r, p, claims, c0, c1), Three(r', p', claims, c0, c1);
    assert s'.prods == s.prods[0 := p'];
    Extend(s, ByProducer(0), e, s');
  }

  lemma MoveFirst(r: Ring, p: Producer, claims: seq<nat>, c0: Consumer, c1: Consumer, r': Ring, claims': seq<nat>, c0': Consumer, e: Event)
    requires Shown(r, p, claims, c0, c1) && 0 < r.cap == |r.mem| && ConsumerStep(r, claims, 0, c0, r', claims', c0', e)
    requires !Stale(r, c0)
    ensures Shown(r', p, claims', c0', c1)
  {
    hide Reached, ConsumerStep;
    var s, s' := Three(r, p, claims, c0, c1), Three(r', p, claims', c0', c1);
    assert s'.cons == s.cons[0 := c0'];
    Extend(s, ByConsumer(0), e, s');
  }

  lemma MoveSecond(r: Ring, p: Producer, claims: seq<nat>, c0: Consumer, c1: Consumer, r': Ring, claims': seq<nat>, c1': Consumer, e: Event)
    requires Shown(r, p, claims, c0, c1) && 0 < r.cap == |r.mem| && ConsumerStep(r, claims, 1, c1, r', claims', c1', e)
    requires !Stale(r, c1)
    ensures Shown(r', p, claims', c0, c1')
  {
    hide Reached, ConsumerStep;
    var s, s' := Three(r, p, claims, c0, c1), Three(r', p, claims', c0, c1');
    assert s'.cons == s.cons[1 := c1'];
    Extend(s, ByConsumer(1), e, s');
  }

  // ---- Whole calls -----------------------------------------------------------------------------------

  lemma {:induction false} Follow(rs: seq<Ring>, pcs: seq<Producer>, es: seq<Event>, claims: seq<nat>, c0: Consumer, c1: Consumer, n: nat)
    requires SW.Walk(0, rs, pcs, es) && n < |rs| && Shown(rs[0], pcs[0], claims, c0, c1)
    ensures Shown(rs[n], pcs[n], claims, c0, c1)
  {
    hide Shown;
    if n > 0 {
      Follow(rs, pcs, es, claims, c0, c1, n - 1);
      assert SW.StepOK(0, rs[n - 1], pcs[n - 1], rs[n - 1 + 1], pcs[n - 1 + 1], es[n - 1]);
      MoveProducer(rs[n - 1], pcs[n - 1], claims, c0, c1, rs[n], pcs[n], es[n - 1]);
    }
  }

  /** The producer pushes a record that fits. */
  lemma PushRuns(r: Ring, claims: seq<nat>, c0: Consumer, c1: Consumer, req: Request)
    requires Shown(r, Idle, claims, c0, c1) && 0 < r.cap == |r.mem| && r.hp <= r.tp == r.tr <= r.hp + r.cap
    requires ValidRequest(req) && Fits(r.cap, r.hp, r.tr, |req.payload|)
    ensures Shown(SW.PushedRing(r, 0, req), Idle, claims, c0, c1)
  {
    var rs, pcs, es := SW.SoloSharedEnds(0, r, req);
    SW.SoloShared(0, req, rs, pcs, es);
    hide Shown, Fits, SW.PushedRing;
    MoveProducer(r, Idle, claims, c0, c1, r, LoadHead(req), Internal);
    Follow(rs, pcs, es, claims, c0, c1, |es|);
  }

  /** What a consumer finds at an unclaimed empty record. */
  lemma EmptyRecordRead(r: Ring, claims: seq<nat>, cons: seq<Consumer>)
    requires RingInv(r) && ConsumersInv(r, claims, cons) && r.iHp == |claims| < r.iTp <= |r.log|
    requires r.log[r.iHp].Rec? && r.log[r.iHp].payload == []
    ensures var at := Pos(r.hp, r.cap);
      && r.hr == r.hp && at + HEADER <= r.cap && RecordSize(0) == HEADER
      && !IsWrap(FlagsField(r.mem, at)) && SizeField(r.mem, at) == 0
      && Hi(r.log[r.iHp]) == r.hp + HEADER <= r.tp
  {
    var i := r.iHp;
    assert r.log[i].lo == Off(r.log, i) && FrameOK(r.cap, r.log[i]);
    ReadFlags(r, i);
    ReadRecord(r, i);
    OffMono(r.cap, r.log, i + 1, r.iTp);
  }

  /** The second consumer finds and claims an empty record at the head. */
  lemma ClaimRuns(r: Ring, claims: seq<nat>, c0: Consumer)
    requires Shown(r, Idle, claims, c0, Resting) && r.iHp == |claims| < r.iTp <= |r.log|
    requires r.log[r.iHp].Rec? && r.log[r.iHp].payload == []
    ensures var nh := Hi(r.log[r.iHp]);
      r.hr == r.hp && Shown(r.(hr := nh), Idle, claims + [1], c0, Claimed(r.hp, nh, r.iHp, CopyOut(0, [])))
  {
    hide Shown, RingInv, WriterInv, ConsumersInv, Pos;
    ShownFacts(r, Idle, claims, c0, Resting);
    EmptyRecordRead(r, claims, [c0, Resting]);
    var i, t, h, nh := r.iHp, r.tp, r.hp, Hi(r.log[r.iHp]);
    var flags := FlagsField(r.mem, Pos(h, r.cap));
    MoveSecond(r, Idle, claims, c0, Resting, r, claims, LoadPublished, Internal);
    MoveSecond(r, Idle, claims, c0, LoadPublished, r, claims, LoadReserved(t), Internal);
    MoveSecond(r, Idle, claims, c0, LoadReserved(t), r, claims, Inspect(t, h), Internal);
    MoveSecond(r, Idle, claims, c0, Inspect(t, h), r, claims, SawFlags(t, h, flags), Internal);
    MoveSecond(r, Idle, claims, c0, SawFlags(t, h, flags), r, claims, SawSize(t, h, 0), Internal);
    MoveSecond(r, Idle, claims, c0, SawSize(t, h, 0), r.(hr := nh), claims + [1],
               Claimed(h, nh, i, CopyOut(0, [])), Internal);
  }

  /** It pops that record. */
  lemma PopRuns(r: Ring, claims: seq<nat>, c0: Consumer)
    requires Shown(r, Idle, claims, c0, Resting) && r.iHp == |claims| < r.iTp <= |r.log|
    requires r.log[r.iHp].Rec? && r.log[r.iHp].payload == []
    ensures var nh := Hi(r.log[r.iHp]);
      Shown(r.(hr := nh, hp := nh, iHp := r.iHp + 1), Idle, claims + [1], c0, Resting)
  {
    ClaimRuns(r, claims, c0);
    var i, h, nh := r.iHp, r.hp, Hi(r.log[r.iHp]);
    var r', claims' := r.(hr := nh), claims + [1];
    var pc := Claimed(h, nh, i, CopyOut(0, []));
    ShownFacts(r', Idle, claims', c0, pc);
    assert r.log[i].lo == Off(r.log, i) && FrameOK(r.cap, r.log[i]);
    hide Shown, RingInv, WriterInv, ConsumersInv;
    var typ, number := TypeField(r.mem, Pos(h, r.cap)), SequenceField(r.mem, Pos(h, r.cap));
    var r'' := r'.(hp := nh, iHp := i + 1);
    MoveSecond(r', Idle, claims', c0, pc, r', claims', pc.(task := LoadSequence([], typ)), Internal);
    MoveSecond(r', Idle, claims', c0, pc.(task := LoadSequence([], typ)), r', claims', pc.(task := HandBack([], typ, number, false)), Internal);
    MoveSecond(r', Idle, claims', c0, pc.(task := HandBack([], typ, number, false)), r', claims', pc.(task := HandBack([], typ, number, true)), Internal);
    MoveSecond(r', Idle, claims', c0, pc.(task := HandBack([], typ, number, true)), r'', claims', Resting, Pop(1, Message(typ, [], number)));
  }

  // ---- The run ---------------------------------------------------------------------------------------

  const NOTHING: Request := Request(0, [])
  const SOMETHING: Request := Request(0, [0])

  lemma Scene0() returns (r: Ring)
    ensures Shown(r, Idle, [], Resting, Resting)
    ensures r.cap == 32 == |r.mem| && r.hr == r.hp == r.tr == r.tp == 0 && r.iHp == r.iTp == 0 && r.log == []
  {
    r := Ring(32, 0, 0, 0, 0, 0, seq(32, i => 0), [], 0, 0);
    var s := Three(r, Idle, [], Resting, Resting);
    assert Init(s);
    hide Init;
    assert Run([s], [], []) && FreshRun([s], []);
  }

  lemma Sizes()
    ensures RecordSize(0) == 16 && RecordSize(1) == 24
    ensures Pos(0, 32) == 0 && Pos(16, 32) == 16 && Pos(32, 32) == 0
  {}

  /** A record that fits before the boundary and into the free space needs no padding. */
  lemma FitsPlainly(cap: nat, h: nat, t: nat, n: nat)
    requires cap > 0 && h <= t && RecordSize(n) <= cap - Pos(t, cap) && t + RecordSize(n) <= h + cap
    ensures PadFor(cap, t, n) == 0 && Fits(cap, h, t, n)
  {}

  /** The first consumer takes its snapshots. */
  lemma Snapshots(r: Ring, c1: Consumer)
    requires Shown(r, Idle, [], Resting, c1) && 0 < r.cap == |r.mem| && r.hr != r.tp
    ensures Shown(r, Idle, [], Inspect(r.tp, r.hr), c1)
  {
    hide Shown;
    MoveFirst(r, Idle, [], Resting, c1, r, [], LoadPublished, Internal);
    MoveFirst(r, Idle, [], LoadPublished, c1, r, [], LoadReserved(r.tp), Internal);
    MoveFirst(r, Idle, [], LoadReserved(r.tp), c1, r, [], Inspect(r.tp, r.hr), Internal);
  }

  /** One empty record is published, and the first consumer has taken its snapshots. */
  lemma Scene1() returns (r: Ring)
    ensures Shown(r, Idle, [], Inspect(16, 0), Resting)
    ensures r.cap == 32 == |r.mem| && r.hr == r.hp == 0 && r.tr == r.tp == 16 && r.iHp == 0 && r.iTp == 1 == |r.log|
    ensures r.log[0].Rec? && r.log[0].payload == [] && Hi(r.log[0]) == 16
  {
    hide Shown, PushMem, Pos, PadFor, Fits;
    var r0 := Scene0();
    Sizes();
    FitsPlainly(32, 0, 0, 0);
    PushRuns(r0, [], Resting, Resting, NOTHING);
    r := SW.PushedRing(r0, 0, NOTHING);
    Snapshots(r, Resting);
  }

  /** A second empty record is published and the other consumer takes both. */
  lemma Scene2() returns (r: Ring)
    ensures Shown(r, Idle, [1, 1], Inspect(16, 0), Resting)
    ensures r.cap == 32 == |r.mem| && r.hr == r.hp == r.tr == r.tp == 32 && r.iHp == r.iTp == 2 == |r.log|
  {
    var c0 := Inspect(16, 0);
    hide Shown, PushMem, Pos, PadFor, Fits;
    var r1 := Scene1();
    Sizes();
    FitsPlainly(32, 0, 16, 0);
    PushRuns(r1, [], c0, Resting, NOTHING);
    var r2 := SW.PushedRing(r1, 0, NOTHING);
    assert r2.log[0] == r1.log[0] && r2.log[1].Rec? && r2.log[1].payload == [] && Hi(r2.log[1]) == 32;
    PopRuns(r2, [], c0);
    var r3 := r2.(hr := 16, hp := 16, iHp := 1);
    PopRuns(r3, [1], c0);
    assert [] + [1] == [1] && [1] + [1] == [1, 1];
    r := r3.(hr := 32, hp := 32, iHp := 2);
  }

  /** A longer record is published where the first one was. */
  lemma Scene3() returns (r: Ring)
    ensures Shown(r, Idle, [1, 1], Inspect(16, 0), Resting)
    ensures r.cap == 32 == |r.mem| && r.hr == 32 && r.iHp == 2 < r.iTp == 3 == |r.log|
    ensures r.log[2].Rec? && r.log[2].lo == 32 && |r.log[2].payload| == 1
  {
    hide Shown, PushMem, Pos, PadFor, Fits;
    var r2 := Scene2();
    Sizes();
    FitsPlainly(32, 32, 32, 1);
    PushRuns(r2, [1, 1], Inspect(16, 0), Resting, SOMETHING);
    r := SW.PushedRing(r2, 0, SOMETHING);
  }

  /** In a fresh run, the first consumer then reads the longer record's header, finds it too long for
      its old snapshots and answers false - with that record in the queue. */
  lemma SpuriousFalse() returns (s: System, s': System)
    ensures Reached(s) && Next(s, ByConsumer(0), Internal, s') && Fresh(s, ByConsumer(0))
    ensures |s.cons| == 2 == |s'.cons| && AnswersFalse(s.cons[0], s'.cons[0], Internal)
    ensures s.r.iTp <= |s.r.log| && Queue(s.r) != []
  {
    hide Shown, Messages, RingInv, WriterInv, ConsumersInv, Pos;
    var r := Scene3();
    Sizes();
    LongRecordRead(r);
    s, s' := Three(r, Idle, [1, 1], SawSize(16, 0, 1), Resting), Three(r, Idle, [1, 1], Resting, Resting);
    LastReads(r, FlagsField(r.mem, 0));
    ShownReached(s.r, [1, 1], SawSize(16, 0, 1));
    assert s'.cons == s.cons[0 := Resting];
  }

  lemma ShownReached(r: Ring, claims: seq<nat>, c0: Consumer)
    requires Shown(r, Idle, claims, c0, Resting)
    ensures Reached(Three(r, Idle, claims, c0, Resting))
  {}

  lemma LongRecordRead(r: Ring)
    requires Shown(r, Idle, [1, 1], Inspect(16, 0), Resting)
    requires r.cap == 32 == |r.mem| && r.iHp == 2 < r.iTp == 3 == |r.log|
    requires r.log[2].Rec? && r.log[2].lo == 32 && |r.log[2].payload| == 1 && Pos(32, 32) == 0
    ensures !IsWrap(FlagsField(r.mem, 0)) && SizeField(r.mem, 0) == 1 && Queue(r) != []
  {
    hide Pos;
    ShownFacts(r, Idle, [1, 1], Inspect(16, 0), Resting);
    ReadFlags(r, 2);
    ReadRecord(r, 2);
    MessagesHead(r.log, 2, 3);
  }

  lemma LastReads(r: Ring, flags: nat)
    requires Shown(r, Idle, [1, 1], Inspect(16, 0), Resting) && r.cap == 32 == |r.mem| && Pos(0, 32) == 0
    requires flags == FlagsField(r.mem, 0) && !IsWrap(flags) && SizeField(r.mem, 0) == 1
    ensures Shown(r, Idle, [1, 1], SawSize(16, 0, 1), Resting)
  {
    hide Shown;
    MoveFirst(r, Idle, [1, 1], Inspect(16, 0), Resting, r, [1, 1], SawFlags(16, 0, flags), Internal);
    MoveFirst(r, Idle, [1, 1], SawFlags(16, 0, flags), Resting, r, [1, 1], SawSize(16, 0, 1), Internal);
  }
}
