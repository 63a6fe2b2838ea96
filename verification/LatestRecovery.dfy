/** Claiming a slot: what a claim that nobody interferes with does, from any state. */
module LatestRecovery {
  import opened Arithmetic
  import opened LatestSlot
  import opened LatestProofs

  /** Agent `c` runs alone from `s` to `t`, within the single-writer contract. */
  ghost predicate Solo(s: System, threshold: nat, c: nat, t: System) {
    exists ss: seq<System> :: SoloVia(ss, threshold, c) && ss[0] == s && ss[|ss| - 1] == t
  }

  predicate SoloVia(ss: seq<System>, threshold: nat, c: nat) {
    && |ss| > 0
    && forall i :: 0 <= i < |ss| - 1 ==> AgentMove(ss[i], threshold, c, ss[i + 1]) && Sole(ss[i], ByAgent(c)) && ParityHolds(ss[i], ByAgent(c))
  }

  lemma SoloDone(s: System, threshold: nat, c: nat)
    ensures Solo(s, threshold, c, s)
  {
    assert SoloVia([s], threshold, c);
  }

  lemma SoloCons(s: System, threshold: nat, c: nat, m: System, t: System)
    requires AgentMove(s, threshold, c, m) && Sole(s, ByAgent(c)) && ParityHolds(s, ByAgent(c)) && Solo(m, threshold, c, t)
    ensures Solo(s, threshold, c, t)
  {
    var ss :| SoloVia(ss, threshold, c) && ss[0] == m && ss[|ss| - 1] == t;
    var rs := [s] + ss;
    forall i | 0 <= i < |rs| - 1 ensures AgentMove(rs[i], threshold, c, rs[i + 1]) && Sole(rs[i], ByAgent(c)) && ParityHolds(rs[i], ByAgent(c)) {
      if i > 0 {
        assert rs[i] == ss[i - 1] && rs[i + 1] == ss[i];
      }
    }
    assert SoloVia(rs, threshold, c);
  }

  /** The state after one more step of agent `c`. */
  function At(s: System, c: nat, a: Agent, x: Slot): (s': System)
    requires c < |s.agents|
  {
    s.(agents := s.agents[c := a], x := x)
  }

  /** One step of a claimant or of a recovery in front of a solo run. */
  lemma StepTo(s: System, threshold: nat, c: nat, a': Agent, x': Slot, t: System)
    requires c < |s.agents| && !Waking(s.agents[c])
    requires AgentStep(s.x, s.clock, threshold, s.agents[c], x', a')
    requires TakesRight(s.x, s.agents[c]) && (!Owns(s.agents[c]) && Owns(a') ==> NoOwner(s.agents))
    requires Solo(At(s, c, a', x'), threshold, c, t)
    ensures Solo(s, threshold, c, t)
  {
    hide Solo;
    SoloCons(s, threshold, c, At(s, c, a', x'), t);
  }

  /** The wipe loop clears every word, then the counter restarts in a new epoch. */
  lemma {:induction false} WipeRuns(s: System, threshold: nat, c: nat, k: nat) returns (t: System)
    requires |s.x.mem| == s.x.n && c < |s.agents| && s.agents[c] == Wipe(k) && k <= s.x.n
    requires forall i :: 0 <= i < k ==> s.x.mem[i] == 0
    ensures Solo(s, threshold, c, t)
    ensures |t.agents| == |s.agents| && t.agents[c] == Ready && t.waiters == WakeAll(s.waiters)
    ensures t.x == s.x.(sequence := 0, mem := Zeros(s.x.n), vals := [Zeros(s.x.n)], epoch := s.x.epoch + 1,
                        notify := s.x.notify + 1, marks := s.x.marks + [(s.x.epoch + 1, 0)])
    decreases s.x.n - k
  {
    hide Solo;
    if k < s.x.n {
      var x := s.x.(mem := s.x.mem[k := 0]);
      t := WipeRuns(At(s, c, Wipe(k + 1), x), threshold, c, k + 1);
      StepTo(s, threshold, c, Wipe(k + 1), x, t);
    } else {
      assert s.x.mem == Zeros(s.x.n);
      var x := s.x.(sequence := 0, epoch := s.x.epoch + 1, vals := [Zeros(s.x.n)]);
      t := NotifyRuns(At(s, c, ResetNotify, x), threshold, c);
      StepTo(s, threshold, c, ResetNotify, x, t);
    }
  }

  lemma NotifyRuns(s: System, threshold: nat, c: nat) returns (t: System)
    requires c < |s.agents| && s.agents[c] == ResetNotify
    ensures Solo(s, threshold, c, t)
    ensures |t.agents| == |s.agents| && t.agents[c] == Ready && t.waiters == WakeAll(s.waiters)
    ensures t.x == s.x.(notify := s.x.notify + 1, marks := s.x.marks + [(s.x.epoch, s.x.sequence)])
  {
    hide Solo;
    var m := At(s, c, ResetWake, s.x.(notify := s.x.notify + 1, marks := s.x.marks + [(s.x.epoch, s.x.sequence)]));
    t := At(m, c, Ready, m.x).(waiters := WakeAll(s.waiters));
    SoloDone(t, threshold, c);
    SoloCons(m, threshold, c, t, t);
    SoloCons(s, threshold, c, m, t);
  }

  /** An even sequence: the claim changes nothing but the heartbeat, so the last committed value
      survives the crash. */
  lemma ClaimResumes(s: System, threshold: nat, c: nat) returns (t: System)
    requires Inv(s) && NoOwner(s.agents) && c < |s.agents| && s.agents[c] == Off
    requires s.x.sequence % 2 == 0
    ensures Solo(s, threshold, c, t) && t == At(s, c, Ready, s.x.(heartbeat := s.clock))
    ensures t.x.mem == t.x.vals[t.x.sequence / 2]
  {
    hide Solo;
    t := At(s, c, Ready, s.x.(heartbeat := s.clock));
    SoloDone(t, threshold, c);
    ClaimPath(s, threshold, c, ResumeStore(s.clock), t, s.x.(heartbeat := s.clock), Ready);
    ClaimPath(s, threshold, c, Resume, t, s.x, ResumeStore(s.clock));
    ClaimPath(s, threshold, c, ClaimSequence, t, s.x, Resume);
    ClaimPath(s, threshold, c, Off, t, s.x, ClaimSequence);
    assert At(s, c, Off, s.x) == s;
  }

  /** One claiming step at stage `a`, nobody owning the slot. */
  lemma ClaimPath(s: System, threshold: nat, c: nat, a: Agent, t: System, x': Slot, a': Agent)
    requires NoOwner(s.agents) && c < |s.agents| && !Owns(a)
    requires AgentStep(s.x, s.clock, threshold, a, x', a') && TakesRight(s.x, a)
    requires Solo(At(s, c, a', x'), threshold, c, t)
    ensures Solo(At(s, c, a, s.x), threshold, c, t)
  {
    hide Solo, AgentStep;
    var m := At(s, c, a, s.x);
    assert At(m, c, a', x') == At(s, c, a', x');
    StepTo(m, threshold, c, a', x', t);
  }

  /** An odd sequence and a stale or absent heartbeat: the claim leaves an empty, zeroed slot in a
      new epoch and wakes every waiter. */
  lemma ClaimRecovers(s: System, threshold: nat, c: nat) returns (t: System)
    requires Inv(s) && NoOwner(s.agents) && c < |s.agents| && s.agents[c] == Off
    requires s.x.sequence % 2 == 1
    requires s.x.heartbeat == 0 || Diff64(s.clock, s.x.heartbeat) >= threshold
    ensures Solo(s, threshold, c, t) && |t.agents| == |s.agents| && t.agents[c] == Ready
    ensures t.x.sequence == 0 && t.x.mem == Zeros(s.x.n) && t.x.epoch == s.x.epoch + 1 && t.x.vals == [Zeros(s.x.n)]
    ensures t.x.notify == s.x.notify + 1 && t.waiters == WakeAll(s.waiters)
  {
    hide Solo;
    var h, x := s.x.heartbeat, s.x.(heartbeat := s.clock);
    t := WipeRuns(At(s, c, Wipe(0), x), threshold, c, 0);
    ClaimPath(s, threshold, c, ClaimSwap(h, s.clock), t, x, Wipe(0));
    ClaimPath(s, threshold, c, ClaimNow(h), t, s.x, ClaimSwap(h, s.clock));
    ClaimPath(s, threshold, c, ClaimHeartbeat, t, s.x, ClaimNow(h));
    ClaimPath(s, threshold, c, ClaimSequence, t, s.x, ClaimHeartbeat);
    ClaimPath(s, threshold, c, Off, t, s.x, ClaimSequence);
    assert At(s, c, Off, s.x) == s;
  }

  // ---- Which claims succeed --------------------------------------------------------------------

  /** The guards of `claim`: an even sequence, or no heartbeat, or a stale one. */
  predicate Claimable(x: Slot, clock: nat, threshold: nat) {
    x.sequence % 2 == 0 || x.heartbeat == 0 || Diff64(clock, x.heartbeat) >= threshold
  }

  predicate Returns(a: Agent) {
    a.Off? || a.Ready?
  }

  /** A whole call of `claim` by agent `c`, without interference: it starts at its load of the
      sequence and ends when the call throws or returns. Other agents may own the slot. */
  predicate ClaimCall(ss: seq<System>, threshold: nat, c: nat) {
    && |ss| > 0 && c < |ss[0].agents| && ss[0].agents[c] == ClaimSequence
    && (forall i :: 0 <= i < |ss| - 1 ==> AgentMove(ss[i], threshold, c, ss[i + 1]) && !Returns(ss[i].agents[c]))
    && c < |ss[|ss| - 1].agents| && Returns(ss[|ss| - 1].agents[c])
  }

  /** The slot after the call. */
  function ClaimedSlot(x: Slot, clock: nat): Slot {
    if x.sequence % 2 == 0 then x.(heartbeat := clock)
    else x.(sequence := 0, mem := Zeros(x.n), heartbeat := clock, notify := x.notify + 1, epoch := x.epoch + 1,
            vals := [Zeros(x.n)], marks := x.marks + [(x.epoch + 1, 0)])
  }

  /** Where the call stands, relative to the slot `x` it started from. */
  predicate ClaimStage(x: Slot, clock: nat, threshold: nat, x': Slot, a: Agent) {
    var odd := x.sequence % 2 == 1;
    var taken := odd && Claimable(x, clock, threshold) && x'.heartbeat == clock && |x'.mem| == x'.n == x.n;
    match a
    case ClaimSequence => x' == x
    case Resume => !odd && x' == x
    case ResumeStore(now) => !odd && x' == x && now == clock
    case ClaimHeartbeat => odd && x' == x
    case ClaimNow(seen) => odd && x' == x && seen == x.heartbeat
    case ClaimSwap(seen, now) =>
      odd && x' == x && seen == x.heartbeat && now == clock && Claimable(x, clock, threshold)
    case Wipe(k) =>
      && taken && x' == x.(heartbeat := clock, mem := x'.mem)
      && k <= x.n && forall i :: 0 <= i < k ==> x'.mem[i] == 0
    case ResetNotify =>
      taken && x' == x.(sequence := 0, mem := Zeros(x.n), heartbeat := clock, epoch := x.epoch + 1, vals := [Zeros(x.n)])
    case ResetWake => taken && x' == ClaimedSlot(x, clock)
    case Ready => Claimable(x, clock, threshold) && x' == ClaimedSlot(x, clock)
    case Off => !Claimable(x, clock, threshold) && x' == x
    case _ => false
  }

  /** The call ends as the owner by a resume, or by the wake of a recovery. */
  lemma StageKind(x: Slot, clock: nat, threshold: nat, y: Slot, a: Agent, y': Slot, a': Agent)
    requires |x.mem| == x.n && ClaimStage(x, clock, threshold, y, a) && !Returns(a)
    requires AgentStep(y, clock, threshold, a, y', a')
    ensures Waking(a) <==> a' == Ready && x.sequence % 2 == 1
  {}

  lemma ClaimStageStep(x: Slot, clock: nat, threshold: nat, y: Slot, a: Agent, y': Slot, a': Agent)
    requires |x.mem| == x.n && ClaimStage(x, clock, threshold, y, a) && !Returns(a)
    requires AgentStep(y, clock, threshold, a, y', a')
    ensures ClaimStage(x, clock, threshold, y', a')
  {
    if a.Wipe? && a.k == |y.mem| {
      assert y.mem == Zeros(x.n);
    }
  }

  /** A recovery releases every blocked waiter at its end; nothing else touches them. */
  function ClaimWaiters(s: System, a: Agent): seq<Waiter> {
    if a.Ready? && s.x.sequence % 2 == 1 then WakeAll(s.waiters) else s.waiters
  }

  lemma {:induction false} ClaimStages(ss: seq<System>, threshold: nat, c: nat, i: nat)
    requires ClaimCall(ss, threshold, c) && |ss[0].x.mem| == ss[0].x.n && i < |ss|
    ensures c < |ss[i].agents| && ss[i].clock == ss[0].clock && ss[i].agents == ss[0].agents[c := ss[i].agents[c]]
    ensures ClaimStage(ss[0].x, ss[0].clock, threshold, ss[i].x, ss[i].agents[c])
    ensures ss[i].readers == ss[0].readers && ss[i].waiters == ClaimWaiters(ss[0], ss[i].agents[c])
  {
    if i > 0 {
      ClaimStages(ss, threshold, c, i - 1);
      assert AgentMove(ss[i - 1], threshold, c, ss[i - 1 + 1]);
      StageKind(ss[0].x, ss[0].clock, threshold, ss[i - 1].x, ss[i - 1].agents[c], ss[i].x, ss[i].agents[c]);
      hide AgentStep, ClaimStage;
      ClaimStageStep(ss[0].x, ss[0].clock, threshold, ss[i - 1].x, ss[i - 1].agents[c], ss[i].x, ss[i].agents[c]);
    }
  }

  predicate SoleOwner(agents: seq<Agent>) {
    forall i, j :: 0 <= i < |agents| && 0 <= j < |agents| && Owns(agents[i]) && Owns(agents[j]) ==> i == j
  }

  /** Every call of `claim` that runs alone, from every state: it takes the slot if and only if the
      sequence is even or the heartbeat is absent or stale, whether or not somebody owns the slot;
      otherwise it throws and changes nothing. So it leaves a sole writer exactly when nobody owned
      the slot before, and a second writer whenever somebody did. */
  lemma ClaimAloneExact(ss: seq<System>, threshold: nat, c: nat)
    requires ClaimCall(ss, threshold, c) && |ss[0].x.mem| == ss[0].x.n
    ensures var s, t := ss[0], ss[|ss| - 1];
      && |t.agents| == |s.agents|
      && (forall i :: 0 <= i < |s.agents| && i != c ==> t.agents[i] == s.agents[i])
      && (t.agents[c] == Ready <==> Claimable(s.x, s.clock, threshold))
      && (t.agents[c] == Off <==> !Claimable(s.x, s.clock, threshold))
      && (if Claimable(s.x, s.clock, threshold) then t.x == ClaimedSlot(s.x, s.clock) else t.x == s.x)
      && t.readers == s.readers && t.waiters == ClaimWaiters(s, t.agents[c])
      && (Claimable(s.x, s.clock, threshold) ==> (SoleOwner(t.agents) <==> NoOwner(s.agents)))
  {
    var s, t := ss[0], ss[|ss| - 1];
    ClaimStages(ss, threshold, c, |ss| - 1);
    hide ClaimedSlot, Claimable, AgentMove, AgentStep;
    if t.agents[c] == Ready && !NoOwner(s.agents) {
      var j :| 0 <= j < |s.agents| && Owns(s.agents[j]);
      assert Owns(t.agents[j]) && Owns(t.agents[c]);
    }
  }

  // ---- What an old parity leads to ----------------------------------------------------------------

  /** What readers rely on: at an even sequence number the slot holds the value committed there. */
  predicate Intact(x: Slot) {
    x.sequence % 2 == 0 ==> x.sequence / 2 < |x.vals| && x.mem == x.vals[x.sequence / 2]
  }

  /** The wipe loop, up to the reset of the sequence. */
  lemma {:induction false} WipesAll(s: System, threshold: nat, c: nat, k: nat) returns (t: System)
    requires c < |s.agents| && s.agents[c] == Wipe(k) && k <= |s.x.mem|
    requires forall i :: 0 <= i < k ==> s.x.mem[i] == 0
    ensures Solo(s, threshold, c, t) && t.x == s.x.(mem := Zeros(|s.x.mem|))
    decreases |s.x.mem| - k
  {
    hide Solo;
    if k < |s.x.mem| {
      var x := s.x.(mem := s.x.mem[k := 0]);
      t := WipesAll(At(s, c, Wipe(k + 1), x), threshold, c, k + 1);
      StepTo(s, threshold, c, Wipe(k + 1), x, t);
    } else {
      assert s.x.mem == Zeros(|s.x.mem|);
      t := s;
      SoloDone(s, threshold, c);
    }
  }

  /** Whatever the slot holds, unless it is all zeros anyway: a recovery that has taken it at an even
      sequence destroys the committed value, by its own steps, while readers may still read it. */
  lemma LateRecoveryHarms(s: System, threshold: nat, c: nat) returns (t: System)
    requires SlotOK(s.x) && c < |s.agents| && s.agents[c] == Wipe(0) && s.x.sequence % 2 == 0
    requires s.x.mem != Zeros(s.x.n)
    ensures Intact(s.x) && Solo(s, threshold, c, t) && !Intact(t.x)
  {
    t := WipesAll(s, threshold, c, 0);
  }

  /** A writer that has resumed at an odd sequence: the first step of its next write after the load
      leaves an even sequence number at which nothing was ever committed, whatever it writes. */
  lemma LateResumeHarms(s: System, threshold: nat, c: nat, v: seq<int>) returns (t: System)
    requires SlotOK(s.x) && c < |s.agents| && s.agents[c] == Ready && s.x.sequence % 2 == 1 && |v| == s.x.n
    ensures Intact(s.x) && Solo(s, threshold, c, t) && !Intact(t.x)
  {
    hide Solo;
    var q := s.x.sequence;
    var m1, m2 := At(s, c, WriteLoad(v, false), s.x), At(s, c, WriteOpen(v, q, false), s.x);
    var x := s.x.(sequence := q + 1);
    t := At(s, c, WriteCopy(v, q, 0, false), x);
    SoloDone(t, threshold, c);
    assert At(m2, c, WriteCopy(v, q, 0, false), x) == t && At(m1, c, WriteOpen(v, q, false), s.x) == m2;
    StepTo(m2, threshold, c, WriteCopy(v, q, 0, false), x, t);
    StepTo(m1, threshold, c, WriteOpen(v, q, false), s.x, t);
    StepTo(s, threshold, c, WriteLoad(v, false), s.x, t);
  }
}
