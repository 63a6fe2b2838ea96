/** What `SharedLatest` guarantees over whole runs. */
module LatestTheorems {
  import opened Arithmetic
  import opened LatestSlot
  import opened LatestProofs

  // ---- When a taker finds the parity that it loaded ------------------------------------------

  /** One step of anyone, while nobody owns the slot, leaves what a claimant saw true. */
  lemma ClaimantStep(s: System, threshold: nat, actor: Actor, s': System, a: nat)
    requires Next(s, threshold, actor, s') && a < |s'.agents| && Claiming(s'.agents[a])
    ensures a < |s.agents|
    ensures Claiming(s.agents[a]) && NoOwner(s.agents) && SeesParity(s.x, s.agents[a]) ==> SeesParity(s'.x, s'.agents[a])
    ensures !Claiming(s.agents[a]) ==> SeesParity(s'.x, s'.agents[a])
  {}

  /** If nobody has owned the slot since a claimant loaded the sequence, it still has the parity that
      the claimant saw. */
  lemma {:induction false} ParityFollows(ss: seq<System>, threshold: nat, actors: seq<Actor>, i: nat, a: nat)
    requires Run(ss, threshold, actors) && i < |ss| && Quiet(ss, i, a) && a < |ss[i].agents|
    ensures SeesParity(ss[i].x, ss[i].agents[a])
  {
    hide *;
    if !Claiming(ss[i].agents[a]) {
      SawNothing(ss[i].x, ss[i].agents[a]);
    } else if i == 0 {
      RunStarts(ss, threshold, actors);
      NobodyClaims(ss[0], a);
    } else {
      RunStep(ss, threshold, actors, i - 1);
      ClaimantStep(ss[i - 1], threshold, actors[i - 1], ss[i], a);
      if Claiming(ss[i - 1].agents[a]) {
        QuietBefore(ss, i, a);
        ParityFollows(ss, threshold, actors, i - 1, a);
      }
    }
  }

  lemma SawNothing(x: Slot, a: Agent)
    requires !Claiming(a)
    ensures SeesParity(x, a)
  {}

  lemma RunStarts(ss: seq<System>, threshold: nat, actors: seq<Actor>)
    requires Run(ss, threshold, actors)
    ensures |ss| == |actors| + 1 && Init(ss[0])
  {
    hide Init, Next;
  }

  lemma RunStep(ss: seq<System>, threshold: nat, actors: seq<Actor>, i: nat)
    requires Run(ss, threshold, actors) && i + 1 < |ss|
    ensures |ss| == |actors| + 1 && Next(ss[i], threshold, actors[i], ss[i + 1])
  {
    hide Init, Next;
  }

  lemma NobodyClaims(s: System, a: nat)
    requires Init(s) && a < |s.agents|
    ensures !Claiming(s.agents[a])
  {}

  lemma QuietBefore(ss: seq<System>, i: nat, a: nat)
    requires 0 < i < |ss| && Quiet(ss, i, a) && a < |ss[i - 1].agents| && a < |ss[i].agents|
    requires Claiming(ss[i - 1].agents[a]) && Claiming(ss[i].agents[a])
    ensures Quiet(ss, i - 1, a) && NoOwner(ss[i - 1].agents)
  {
    hide NoOwner, Claiming, ClaimStretch;
    StretchOne(ss, i - 1, a);
    StretchGrows(ss, i - 1, i, a);
    forall k | 0 <= k <= i - 1 && ClaimStretch(ss, k, i - 1, a) ensures NoOwner(ss[k].agents) {
      StretchGrows(ss, k, i, a);
    }
  }

  lemma StretchOne(ss: seq<System>, i: nat, a: nat)
    requires i < |ss| && a < |ss[i].agents| && Claiming(ss[i].agents[a])
    ensures ClaimStretch(ss, i, i, a)
  {
    hide Claiming;
  }

  lemma StretchGrows(ss: seq<System>, k: nat, i: nat, a: nat)
    requires 0 < i < |ss| && ClaimStretch(ss, k, i - 1, a) && a < |ss[i].agents| && Claiming(ss[i].agents[a])
    ensures ClaimStretch(ss, k, i, a)
  {
    hide Claiming;
  }

  /** An undisturbed take is the take of a sole writer that finds the parity it loaded. */
  lemma UndisturbedTakes(ss: seq<System>, threshold: nat, actors: seq<Actor>, i: nat)
    requires Run(ss, threshold, actors) && UndisturbedRun(ss, actors) && i < |actors|
    ensures Sole(ss[i], actors[i]) && ParityHolds(ss[i], actors[i])
  {
    if TakesAt(ss, actors, i) {
      assert ClaimStretch(ss, i, i, actors[i].a);
      ParityFollows(ss, threshold, actors, i, actors[i].a);
    }
  }

  predicate InvUpTo(ss: seq<System>, n: nat) {
    n < |ss| && forall i :: 0 <= i <= n ==> Inv(ss[i])
  }

  /** With a sole writer throughout, every state is consistent if and only if every taker finds the
      parity that it loaded; `claim` does not look again, so nothing in the code enforces it. */
  lemma {:induction false} SoleRunExact(ss: seq<System>, threshold: nat, actors: seq<Actor>, n: nat)
    requires Run(ss, threshold, actors) && SoleRun(ss, actors, n)
    ensures InvUpTo(ss, n) <==> ParityRun(ss, actors, n)
  {
    if n == 0 {
      InitInv(ss[0]);
    } else {
      SoleRunExact(ss, threshold, actors, n - 1);
      assert InvUpTo(ss, n) <==> InvUpTo(ss, n - 1) && Inv(ss[n]);
      assert ParityRun(ss, actors, n) <==> ParityRun(ss, actors, n - 1) && ParityHolds(ss[n - 1], actors[n - 1]);
      if InvUpTo(ss, n - 1) {
        assert Next(ss[n - 1], threshold, actors[n - 1], ss[n]) && Sole(ss[n - 1], actors[n - 1]);
        StepKeepsExactly(ss[n - 1], threshold, actors[n - 1], ss[n]);
      }
    }
  }

  // ---- Reads --------------------------------------------------------------------------

  /** Every state of every undisturbed run, crashes included, is consistent. */
  lemma {:induction false} RunSafe(ss: seq<System>, threshold: nat, actors: seq<Actor>, i: nat)
    requires Run(ss, threshold, actors) && UndisturbedRun(ss, actors) && i < |ss|
    ensures Inv(ss[i])
  {
    hide Inv, Init, Next, Sole, ParityHolds, UndisturbedRun;
    if i == 0 {
      InitInv(ss[0]);
    } else {
      RunSafe(ss, threshold, actors, i - 1);
      UndisturbedTakes(ss, threshold, actors, i - 1);
      assert Next(ss[i - 1], threshold, actors[i - 1], ss[i - 1 + 1]);
      StepKeeps(ss[i - 1], threshold, actors[i - 1], ss[i]);
    }
  }

  /** Step `i` of the run is the second sequence load of a successful read by reader `r`. */
  predicate ReadsAt(ss: seq<System>, actors: seq<Actor>, i: nat, r: nat) {
    && |ss| == |actors| + 1 && i < |actors| && actors[i] == ByReader(r)
    && r < |ss[i].readers| && r < |ss[i + 1].readers|
    && ss[i].readers[r].pc.CopyWords? && ss[i + 1].readers[r].pc.Done?
  }

  /** A successful read that no recovery crossed returns exactly the value committed at its
      sequence number - the zeroed slot for 0 - which is the whole content of the slot at its
      second load, and it is not older than the reader's previous such read of the epoch. */
  lemma ReadReturnsCommitted(ss: seq<System>, threshold: nat, actors: seq<Actor>, i: nat, r: nat)
    requires Run(ss, threshold, actors) && UndisturbedRun(ss, actors) && ReadsAt(ss, actors, i, r)
    requires ss[i].readers[r].pc.ep == ss[i].x.epoch
    ensures var x, before, after := ss[i].x, ss[i].readers[r], ss[i + 1].readers[r];
      && after.pc.result == Success
      && after.pc.s1 == x.sequence && x.sequence % 2 == 0
      && x.sequence / 2 < |x.vals| && after.pc.got == x.vals[x.sequence / 2] == x.mem
      && (x.sequence == 0 ==> after.pc.got == Zeros(x.n))
      && (before.lastEp == x.epoch ==> before.lastSeq <= x.sequence)
  {
    RunSafe(ss, threshold, actors, i);
    assert Next(ss[i], threshold, actors[i], ss[i + 1]);
    var x := ss[i].x;
    assert ReaderOK(x, ss[i].readers[r]);
    assert ss[i].readers[r].pc.got == x.vals[x.sequence / 2];
  }

  predicate NotAfter(e1: nat, q1: nat, e2: nat, q2: nat) {
    e1 < e2 || (e1 == e2 && q1 <= q2)
  }

  /** The successful reads of one reader never go back, whatever the writers and crashes do. */
  lemma {:induction false} ReadsMonotone(ss: seq<System>, threshold: nat, actors: seq<Actor>, i: nat, j: nat, r: nat)
    requires Run(ss, threshold, actors) && UndisturbedRun(ss, actors) && i <= j < |ss| && r < |ss[i].readers|
    ensures |ss[j].readers| == |ss[i].readers|
    ensures NotAfter(ss[i].readers[r].lastEp, ss[i].readers[r].lastSeq, ss[j].readers[r].lastEp, ss[j].readers[r].lastSeq)
    decreases j
  {
    hide Inv, Next, Init;
    if i < j {
      ReadsMonotone(ss, threshold, actors, i, j - 1, r);
      RunSafe(ss, threshold, actors, j - 1);
      ReadMonotone(ss[j - 1], threshold, actors[j - 1], ss[j], r);
    }
  }

  lemma ReadMonotone(s: System, threshold: nat, actor: Actor, s': System, r: nat)
    requires Inv(s) && Next(s, threshold, actor, s') && r < |s.readers|
    ensures |s'.readers| == |s.readers|
    ensures NotAfter(s.readers[r].lastEp, s.readers[r].lastSeq, s'.readers[r].lastEp, s'.readers[r].lastSeq)
  {
    assert ReaderOK(s.x, s.readers[r]);
  }

  /** At every moment, also right after a crash in the middle of a write: an even sequence number
      means the slot holds the last committed value complete, or the zeros it started with. */
  lemma EvenMeansIntact(ss: seq<System>, threshold: nat, actors: seq<Actor>, i: nat)
    requires Run(ss, threshold, actors) && UndisturbedRun(ss, actors) && i < |ss|
    requires ss[i].x.sequence % 2 == 0
    ensures var x := ss[i].x;
      && x.sequence / 2 == |x.vals| - 1 && x.mem == x.vals[x.sequence / 2]
      && (x.sequence == 0 ==> x.mem == Zeros(x.n))
  {
    RunSafe(ss, threshold, actors, i);
  }

  // ---- Recovery happens once -------------------------------------------------------------

  /** An agent about to store the heartbeat without comparing it. */
  predicate PlainBeat(a: Agent) {
    a.ResumeStore? || a.WriteBeatStore?
  }

  /** The heartbeat `h` is history: the heartbeat, the clock and every pending plain store have
      passed it. */
  predicate Passed(s: System, h: nat) {
    && h < s.x.heartbeat && h < s.clock
    && forall i :: 0 <= i < |s.agents| && PlainBeat(s.agents[i]) ==> h < s.agents[i].now
  }

  /** Clock readings never exceed the clock, and a pending exchange moves the heartbeat forward. */
  predicate BeatOK(a: Agent, clock: nat) {
    && (PlainBeat(a) ==> a.now <= clock)
    && (a.ClaimNow? ==> a.seen <= clock)
    && (a.ClaimSwap? ==> a.seen < a.now <= clock)
  }

  predicate ClockOK(s: System) {
    s.x.heartbeat <= s.clock && forall i :: 0 <= i < |s.agents| ==> BeatOK(s.agents[i], s.clock)
  }

  lemma BeatStep(x: Slot, clock: nat, threshold: nat, a: Agent, x': Slot, a': Agent)
    requires AgentStep(x, clock, threshold, a, x', a') && x.heartbeat <= clock && BeatOK(a, clock)
    requires threshold > 0 && 0 < clock < TWO64
    ensures x'.heartbeat <= clock && BeatOK(a', clock)
  {}

  lemma ClockStep(s: System, threshold: nat, actor: Actor, s': System)
    requires Next(s, threshold, actor, s') && ClockOK(s) && threshold > 0 && 0 < s.clock < TWO64
    ensures ClockOK(s') && s.clock <= s'.clock
  {
    if actor.ByAgent? {
      BeatStep(s.x, s.clock, threshold, s.agents[actor.a], s'.x, s'.agents[actor.a]);
      hide AgentStep, BeatOK;
    }
  }

  lemma PassedStep(s: System, threshold: nat, actor: Actor, s': System, h: nat)
    requires Next(s, threshold, actor, s') && ClockOK(s) && Passed(s, h)
    ensures Passed(s', h)
  {
  }

  predicate ClockRun(ss: seq<System>, threshold: nat) {
    threshold > 0 && forall i :: 0 <= i < |ss| ==> 0 < ss[i].clock < TWO64
  }

  lemma {:induction false} RunClock(ss: seq<System>, threshold: nat, actors: seq<Actor>, i: nat)
    requires Run(ss, threshold, actors) && ClockRun(ss, threshold) && i < |ss|
    ensures ClockOK(ss[i])
  {
    if i > 0 {
      RunClock(ss, threshold, actors, i - 1);
      ClockStep(ss[i - 1], threshold, actors[i - 1], ss[i]);
    }
  }

  /** Step `i` is a successful recovery exchange from the stale heartbeat `h`. */
  predicate RecoversAt(ss: seq<System>, actors: seq<Actor>, i: nat, h: nat) {
    && |ss| == |actors| + 1 && i < |actors| && actors[i].ByAgent? && actors[i].a < |ss[i].agents|
    && ss[i].agents[actors[i].a].ClaimSwap?
    && ss[i].agents[actors[i].a].seen == h == ss[i].x.heartbeat
  }

  /** The writer whose heartbeat is `h` has stopped: no plain store of `h` or less is pending. */
  predicate Stopped(s: System, h: nat) {
    forall i :: 0 <= i < |s.agents| && PlainBeat(s.agents[i]) ==> h < s.agents[i].now
  }

  lemma {:induction false} PassedRun(ss: seq<System>, threshold: nat, actors: seq<Actor>, i: nat, j: nat, h: nat)
    requires Run(ss, threshold, actors) && ClockRun(ss, threshold)
    requires RecoversAt(ss, actors, i, h) && Stopped(ss[i], h) && i < j < |ss|
    ensures Passed(ss[j], h)
    decreases j
  {
    RunClock(ss, threshold, actors, j - 1);
    assert Next(ss[j - 1], threshold, actors[j - 1], ss[j]);
    if j > i + 1 {
      PassedRun(ss, threshold, actors, i, j - 1, h);
      PassedStep(ss[j - 1], threshold, actors[j - 1], ss[j], h);
    }
  }

  /** At most one claimant holding a given stale heartbeat recovers the slot. */
  lemma RecoversOnce(ss: seq<System>, threshold: nat, actors: seq<Actor>, i: nat, j: nat, h: nat)
    requires Run(ss, threshold, actors) && ClockRun(ss, threshold)
    requires RecoversAt(ss, actors, i, h) && Stopped(ss[i], h) && i < j
    ensures !RecoversAt(ss, actors, j, h)
  {
    if RecoversAt(ss, actors, j, h) {
      PassedRun(ss, threshold, actors, i, j, h);
      assert false;
    }
  }

  // ---- Waiting ----------------------------------------------------------------------------

  lemma {:induction false} RunWaits(ss: seq<System>, threshold: nat, actors: seq<Actor>, i: nat)
    requires Run(ss, threshold, actors) && TimelyRun(ss, actors) && i < |ss|
    ensures WaitInv(ss[i])
  {
    if i == 0 {
      InitInv(ss[0]);
    } else {
      RunWaits(ss, threshold, actors, i - 1);
      StepKeepsWaiters(ss[i - 1], threshold, actors[i - 1], ss[i]);
    }
  }

  /** Step `j` is the death of an agent between counting a notification and waking its waiters. */
  predicate DiesNotifying(ss: seq<System>, actors: seq<Actor>, j: nat) {
    && |ss| == |actors| + 1 && j < |actors| && actors[j].Crash? && actors[j].a < |ss[j].agents|
    && Waking(ss[j].agents[actors[j].a])
  }

  lemma {:induction false} LostByDeath(ss: seq<System>, threshold: nat, actors: seq<Actor>, i: nat) returns (j: nat)
    requires Run(ss, threshold, actors) && i < |ss| && ss[i].lostAt > 0
    ensures j < i && DiesNotifying(ss, actors, j) && ss[j].x.notify == ss[i].lostAt
  {
    assert i > 0;
    assert Next(ss[i - 1], threshold, actors[i - 1], ss[i]);
    j := i - 1;
    if ss[i].lostAt == ss[i - 1].lostAt && !(DiesNotifying(ss, actors, j) && ss[j].x.notify == ss[i].lostAt) {
      j := LostByDeath(ss, threshold, actors, i - 1);
    }
  }

  /** Agent `a` is about to wake, and its next step releases every blocked waiter. */
  ghost predicate Wakes(s: System, threshold: nat, a: nat) {
    && a < |s.agents| && Waking(s.agents[a])
    && forall s' :: AgentMove(s, threshold, a, s') ==> NoneBlocked(s'.waiters)
  }

  /** No lost wake-up, up to dying notifiers: a waiter blocked although the counter has moved has an
      agent about to wake it, or else a notifier beyond its snapshot has died before waking. */
  lemma NoLostWakeUp(ss: seq<System>, threshold: nat, actors: seq<Actor>, i: nat, w: nat) returns (a: nat, j: nat)
    requires Run(ss, threshold, actors) && TimelyRun(ss, actors) && i < |ss|
    requires w < |ss[i].waiters| && ss[i].waiters[w].Blocked? && ss[i].waiters[w].count < ss[i].x.notify
    ensures || Wakes(ss[i], threshold, a)
            || (j < i && DiesNotifying(ss, actors, j) && ss[i].waiters[w].count < ss[j].x.notify)
  {
    RunWaits(ss, threshold, actors, i);
    a, j := 0, 0;
    assert WaiterOK(ss[i].x, ss[i].agents, ss[i].lostAt, ss[i].waiters[w]);
    if ss[i].waiters[w].count < ss[i].lostAt {
      j := LostByDeath(ss, threshold, actors, i);
    } else {
      a :| 0 <= a < |ss[i].agents| && Waking(ss[i].agents[a]);
      assert Wakes(ss[i], threshold, a);
    }
  }

  predicate NoneBlocked(ws: seq<Waiter>) {
    forall w :: 0 <= w < |ws| ==> !ws[w].Blocked?
  }

  /** The mark of a notification is the write it announces. */
  lemma NotifyMarks(s: System, threshold: nat, a: nat, s': System)
    requires Inv(s) && AgentMove(s, threshold, a, s') && s.agents[a].WriteNotify?
    ensures s'.x.marks == s.x.marks + [(s.x.epoch, s.agents[a].done)]
    ensures s.agents[a].done / 2 == |s.x.vals| - 1
  {
    assert AgentOK(s.x, s.agents[a]);
  }

  /** After being woken: once notification `m` has been counted, every read attempt begun in the
      epoch of that notification starts from a sequence number at least as new as its write. */
  lemma WokenReadsNew(ss: seq<System>, threshold: nat, actors: seq<Actor>, i: nat, r: nat, m: nat)
    requires Run(ss, threshold, actors) && UndisturbedRun(ss, actors) && i < |actors|
    requires actors[i] == ByReader(r) && r < |ss[i].readers| && ss[i].readers[r].pc.LoadSequence?
    requires r < |ss[i + 1].readers| && ss[i + 1].readers[r].pc.CopyWords?
    requires m < ss[i].x.notify
    ensures m < |ss[i].x.marks|
    ensures ss[i].x.marks[m].0 == ss[i].x.epoch ==> ss[i].x.marks[m].1 <= ss[i + 1].readers[r].pc.s1
  {
    RunSafe(ss, threshold, actors, i);
    assert Next(ss[i], threshold, actors[i], ss[i + 1]);
  }
}
