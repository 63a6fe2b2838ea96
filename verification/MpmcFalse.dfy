/** When the multi-consumer `try_pop` answers false. */
module MpmcFalse {
  import opened Arithmetic
  import opened RingLayout
  import opened FrameLog
  import opened FrameLogFacts
  import opened Fifo
  import opened RingWriterProofs
  import opened MpmcRing
  import opened MpmcProofs
  import opened MpmcSystem
  import MpmcStale

  // ---- What a scanning consumer knows -----------------------------------------------------------

  /** `t` is the start or the end of a published frame. */
  predicate Boundary(r: Ring, t: nat) {
    r.iTp <= |r.log| && exists j :: 0 <= j <= r.iTp && t == Off(r.log, j)
  }

  /** Between the load of the tail and the compare-and-swap. */
  predicate Scanning(pc: Consumer) {
    pc.Inspect? || pc.SawFlags? || pc.SawSize?
  }

  /** A tail snapshot is a boundary, and past the first test it differs from the head snapshot. */
  predicate ScanOK(r: Ring, pc: Consumer) {
    && (pc.LoadReserved? || Scanning(pc) ==> Boundary(r, pc.t))
    && (Scanning(pc) ==> pc.t != pc.h)
  }

  predicate AllScans(r: Ring, cons: seq<Consumer>) {
    forall c :: 0 <= c < |cons| ==> ScanOK(r, cons[c])
  }

  lemma BoundaryKept(r: Ring, r': Ring, t: nat)
    requires Boundary(r, t) && r.log <= r'.log && r.iTp <= r'.iTp <= |r'.log|
    ensures Boundary(r', t)
  {
    var j :| 0 <= j <= r.iTp && t == Off(r.log, j);
    assert t == Off(r'.log, j);
  }

  lemma ScanStep(s: System, a: Actor, e: Event, s': System)
    requires Inv(s) && AllScans(s.r, s.cons) && Next(s, a, e, s')
    ensures AllScans(s'.r, s'.cons)
  {
    match a
    case ByProducer(p) =>
      ProducerFifo(s.r, s.prods, p, s'.r, s'.prods[p], e);
      forall c | 0 <= c < |s'.cons| ensures ScanOK(s'.r, s'.cons[c]) {
        var pc := s.cons[c];
        if pc.LoadReserved? || Scanning(pc) { BoundaryKept(s.r, s'.r, pc.t); }
      }
    case ByConsumer(c) => ConsumerScans(s.r, s.claims, s.cons, c, s'.r, s'.claims, s'.cons, e);
  }

  lemma ConsumerScans(r: Ring, claims: seq<nat>, cons: seq<Consumer>, c: nat,
                      r': Ring, claims': seq<nat>, cons': seq<Consumer>, e: Event)
    requires RingInv(r) && ConsumersInv(r, claims, cons) && AllScans(r, cons) && c < |cons| == |cons'|
    requires ConsumerStep(r, claims, c, cons[c], r', claims', cons'[c], e) && cons' == cons[c := cons'[c]]
    ensures AllScans(r', cons')
  {
    ConsumerShape(r, claims, cons, c, r', claims', cons'[c], e);
    OwnScan(r, claims, c, cons[c], r', claims', cons'[c], e);
    hide ConsumerStep, RingInv, ConsumersInv;
    forall i | 0 <= i < |cons'| && i != c ensures ScanOK(r', cons'[i]) {
      assert ScanOK(r, cons[i]);
      OtherScan(r, r', cons[i]);
    }
  }

  lemma OwnScan(r: Ring, claims: seq<nat>, c: nat, pc: Consumer, r': Ring, claims': seq<nat>, pc': Consumer, e: Event)
    requires 0 < r.cap == |r.mem| && r.iTp <= |r.log| && r.tp == Off(r.log, r.iTp) && ScanOK(r, pc)
    requires ConsumerStep(r, claims, c, pc, r', claims', pc', e) && r'.log == r.log && r'.iTp == r.iTp
    ensures ScanOK(r', pc')
  {
    hide Boundary;
    if pc'.LoadReserved? {
      TailIsBoundary(r);
    }
    if pc.LoadReserved? || Scanning(pc) {
      OtherScan(r, r', pc);
      SameBoundary(r, r', pc.t);
    }
  }

  lemma TailIsBoundary(r: Ring)
    requires r.iTp <= |r.log| && r.tp == Off(r.log, r.iTp)
    ensures Boundary(r, r.tp)
  {}

  lemma SameBoundary(r: Ring, r': Ring, t: nat)
    requires r'.log == r.log && r'.iTp == r.iTp
    ensures Boundary(r', t) == Boundary(r, t)
  {}

  lemma OtherScan(r: Ring, r': Ring, pc: Consumer)
    requires ScanOK(r, pc) && r'.log == r.log && r'.iTp == r.iTp
    ensures ScanOK(r', pc)
  {}

  lemma {:induction false} RunScans(ss: seq<System>, actors: seq<Actor>, es: seq<Event>, n: nat)
    requires Run(ss, actors, es) && FreshRun(ss, actors) && n < |ss|
    ensures Inv(ss[n]) && AllScans(ss[n].r, ss[n].cons)
  {
    hide Next, Inv, AllScans, Init, Fresh;
    RunSafe(ss, actors, es, n);
    if n > 0 {
      RunScans(ss, actors, es, n - 1);
      assert Next(ss[n - 1], actors[n - 1], es[n - 1], ss[n - 1 + 1]);
      ScanStep(ss[n - 1], actors[n - 1], es[n - 1], ss[n]);
    } else {
      InitScans(ss[0]);
    }
  }

  lemma InitScans(s: System)
    requires Init(s)
    ensures AllScans(s.r, s.cons)
  {}

  // ---- The exits ---------------------------------------------------------------------------------

  /** While `head_reserve` still equals the head snapshot, the next frame fits into what the tail
      snapshot makes available - also when that difference wraps around. */
  lemma EnoughAvailable(r: Ring, claims: seq<nat>, cons: seq<Consumer>, c: nat, pc: Consumer)
    requires RingInv(r) && ConsumersInv(r, claims, cons) && ConsumerOK(r, claims, c, pc) && ScanOK(r, pc)
    requires Scanning(pc) && pc.h == r.hr && (pc.t < pc.h ==> pc.h - pc.t + r.cap <= TWO64)
    ensures |claims| < r.iTp <= |r.log| && r.log[|claims|].lo == pc.h
    ensures Len(r.log[|claims|]) <= Diff64(pc.t, pc.h) && FrameOK(r.cap, r.log[|claims|])
  {
    var i := |claims|;
    NextFrame(r, claims, cons);
    assert FrameOK(r.cap, r.log[i]);
    if pc.t < pc.h {
      MpmcStale.StaleAvailable(pc.t, pc.h, r.cap);
    } else {
      var j :| 0 <= j <= r.iTp && pc.t == Off(r.log, j);
      if j <= i {
        OffMono(r.cap, r.log, j, i);
        assert false;
      }
      OffMono(r.cap, r.log, i + 1, j);
    }
  }

  /** What the consumer has read does not fit into what its snapshots make available, or crosses the
      boundary: a gap or a header, padding that the flags announce, a record of the size read. */
  predicate TooLittle(cap: nat, pc: Consumer)
    requires cap > 0 && Scanning(pc)
  {
    var remaining, available := cap - Pos(pc.h, cap), Diff64(pc.t, pc.h);
    match pc
    case Inspect(_, _) => available < (if remaining < HEADER then remaining else HEADER)
    case SawFlags(_, _, flags) => IsWrap(flags) && available < remaining
    case SawSize(_, _, size) => RecordSize(size) > remaining || available < RecordSize(size)
  }

  /** The call returns false at this step: it ends, and nothing was delivered. */
  predicate AnswersFalse(pc: Consumer, pc': Consumer, e: Event) {
    pc != Resting && pc' == Resting && !e.Pop?
  }

  lemma NoExit(r: Ring, claims: seq<nat>, cons: seq<Consumer>, c: nat)
    requires RingInv(r) && ConsumersInv(r, claims, cons) && c < |cons| && ScanOK(r, cons[c])
    requires Scanning(cons[c]) && cons[c].h == r.hr && (cons[c].t < cons[c].h ==> cons[c].h - cons[c].t + r.cap <= TWO64)
    ensures !TooLittle(r.cap, cons[c])
  {
    var pc := cons[c];
    assert ConsumerOK(r, claims, c, pc);
    EnoughAvailable(r, claims, cons, c, pc);
    if pc.Inspect? && r.cap - Pos(pc.h, r.cap) < HEADER {
      ShortTail(r, |claims|);
    }
  }

  /** The exits of the loop: where it ends the call, and where it goes on. */
  lemma Exits(r: Ring, claims: seq<nat>, c: nat, pc: Consumer, r': Ring, claims': seq<nat>, pc': Consumer, e: Event)
    requires 0 < r.cap == |r.mem| && ConsumerStep(r, claims, c, pc, r', claims', pc', e) && pc != Resting
    ensures AnswersFalse(pc, pc', e) <==> (pc.LoadReserved? && pc.t == r.hr) || (Scanning(pc) && TooLittle(r.cap, pc))
    ensures Scanning(pc) && pc' != Resting ==>
      pc' == LoadPublished || pc'.Claimed? || (Scanning(pc') && pc'.t == pc.t && pc'.h == pc.h)
  {
    hide Pos, RecordSize, FlagsField, SizeField, TypeField, SequenceField;
  }

  /** `try_pop` answers false for one of two reasons, and for these it does: at its head load every
      frame up to its tail snapshot was claimed; or what it has read does not fit into what its
      snapshots make available. The second happens only after another consumer has moved
      `head_reserve` away from its snapshot, provided that fewer than 2^64 bytes pass between its two
      loads. In every other case the call goes on. */
  lemma FalseMeans(ss: seq<System>, actors: seq<Actor>, es: seq<Event>, n: nat, c: nat)
    requires Run(ss, actors, es) && FreshRun(ss, actors) && n < |es| && actors[n] == ByConsumer(c)
    requires c < |ss[n].cons| && c < |ss[n + 1].cons| && ss[n].cons[c] != Resting
    ensures var s, pc := ss[n], ss[n].cons[c];
      && s.r.cap > 0
      && (AnswersFalse(pc, ss[n + 1].cons[c], es[n]) <==>
            (pc.LoadReserved? && pc.t == s.r.hr) || (Scanning(pc) && TooLittle(s.r.cap, pc)))
      && |s.claims| <= s.r.iTp <= |s.r.log| && s.r.hr == Off(s.r.log, |s.claims|)
      && (Scanning(pc) && TooLittle(s.r.cap, pc) && (pc.t < pc.h ==> pc.h - pc.t + s.r.cap <= TWO64) ==> pc.h < s.r.hr)
  {
    RunScans(ss, actors, es, n);
    assert Next(ss[n], actors[n], es[n], ss[n + 1]);
    var s, pc := ss[n], ss[n].cons[c];
    Exits(s.r, s.claims, c, pc, ss[n + 1].r, ss[n + 1].claims, ss[n + 1].cons[c], es[n]);
    assert ScanOK(s.r, pc) && ConsumerOK(s.r, s.claims, c, pc);
    hide ConsumerStep, TooLittle;
    if Scanning(pc) && (pc.t < pc.h ==> pc.h - pc.t + s.r.cap <= TWO64) && pc.h == s.r.hr {
      NoExit(s.r, s.claims, s.cons, c);
    }
  }
}
