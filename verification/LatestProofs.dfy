/** Every step of an undisturbed run keeps the seqlock invariant. */
module LatestProofs {
  import opened Arithmetic
  import opened LatestSlot

  /** How one step may change the slot: within an epoch the sequence and the committed values only
      grow; a recovery starts a new epoch. */
  predicate Evolves(x: Slot, x': Slot) {
    && x'.n == x.n
    && x.notify <= x'.notify
    && ( || (x'.epoch == x.epoch && x.sequence <= x'.sequence && x.vals <= x'.vals)
         || x'.epoch == x.epoch + 1)
  }

  /** Whoever takes the slot finds the parity that it loaded. */
  predicate TakesRight(x: Slot, a: Agent) {
    Takes(x, a) ==> SeesParity(x, a)
  }

  lemma SlotKept(x: Slot, clock: nat, threshold: nat, a: Agent, x': Slot, a': Agent)
    requires SlotOK(x) && AgentOK(x, a) && AgentStep(x, clock, threshold, a, x', a')
    ensures SlotOK(x') && Evolves(x, x')
  {
    if a.WriteCopy? && a.k >= |a.v| {
      assert x.mem == a.v;
    } else if a.Wipe? && a.k == |x.mem| {
      assert x.mem == Zeros(x.n);
    }
  }

  lemma AgentPlaced(x: Slot, clock: nat, threshold: nat, a: Agent, x': Slot, a': Agent)
    requires SlotOK(x) && AgentOK(x, a) && AgentStep(x, clock, threshold, a, x', a')
    ensures AgentOK(x', a') <==> TakesRight(x, a)
  {
    if a.WriteCopy? && a.k < |a.v| {
      assert x'.mem[..a.k + 1] == a.v[..a.k + 1];
    }
  }

  /** Every step keeps the slot consistent; it puts its agent where it should be exactly when a take
      finds the parity that the claimant loaded. */
  lemma AgentKeepsSlot(x: Slot, clock: nat, threshold: nat, a: Agent, x': Slot, a': Agent)
    requires SlotOK(x) && AgentOK(x, a)
    requires AgentStep(x, clock, threshold, a, x', a')
    ensures SlotOK(x') && Evolves(x, x')
    ensures AgentOK(x', a') <==> TakesRight(x, a)
  {
    hide *;
    SlotKept(x, clock, threshold, a, x', a');
    AgentPlaced(x, clock, threshold, a, x', a');
  }

  lemma AgentKeepsMarks(x: Slot, clock: nat, threshold: nat, a: Agent, x': Slot, a': Agent)
    requires SlotOK(x) && AgentOK(x, a) && MarksOK(x)
    requires AgentStep(x, clock, threshold, a, x', a')
    ensures MarksOK(x')
  {
  }

  /** Only an owner, or an agent becoming one, touches the slot. */
  lemma OthersKept(x: Slot, clock: nat, threshold: nat, a: Agent, x': Slot, a': Agent, b: Agent)
    requires AgentOK(x, b) && AgentStep(x, clock, threshold, a, x', a')
    requires Owns(a) || Owns(a') ==> !Owns(b)
    ensures AgentOK(x', b)
  {
  }

  lemma AgentsKept(s: System, threshold: nat, a: nat, s': System)
    requires SlotOK(s.x) && AgentsInv(s.x, s.agents)
    requires AgentMove(s, threshold, a, s') && Sole(s, ByAgent(a)) && ParityHolds(s, ByAgent(a))
    ensures SlotOK(s'.x) && Evolves(s.x, s'.x) && AgentsInv(s'.x, s'.agents)
  {
    AgentKeepsSlot(s.x, s.clock, threshold, s.agents[a], s'.x, s'.agents[a]);
    forall i | 0 <= i < |s'.agents| ensures AgentOK(s'.x, s'.agents[i]) {
      if i != a {
        OthersKept(s.x, s.clock, threshold, s.agents[a], s'.x, s'.agents[a], s.agents[i]);
      }
    }
  }

  lemma ReaderKept(x: Slot, x': Slot, rd: Reader)
    requires SlotOK(x) && SlotOK(x') && Evolves(x, x') && ReaderOK(x, rd)
    ensures ReaderOK(x', rd)
  {
  }

  lemma ReadKeeps(x: Slot, clock: nat, threshold: nat, rd: Reader, rd': Reader)
    requires SlotOK(x) && ReaderOK(x, rd) && ReadStep(x, clock, threshold, rd, rd')
    ensures ReaderOK(x, rd')
  {}

  lemma WaiterKept(s: System, threshold: nat, a: nat, s': System, w: Waiter)
    requires AgentMove(s, threshold, a, s')
    requires WaiterOK(s.x, s.agents, s.lostAt, w)
    ensures WaiterOK(s'.x, s'.agents, s'.lostAt, if Waking(s.agents[a]) && w.Blocked? then Returned(w.count, true) else w)
  {
    if w.Blocked? && !Waking(s.agents[a]) && w.count < s'.x.notify && w.count >= s'.lostAt {
      if s.x.notify < s'.x.notify {
        assert Waking(s'.agents[a]);
      } else {
        var i :| 0 <= i < |s.agents| && Waking(s.agents[i]);
        assert s'.agents[i] == s.agents[i];
      }
    }
  }

  lemma CrashKeepsWaiter(s: System, a: nat, s': System, w: Waiter)
    requires CrashMove(s, a, s') && WaiterOK(s.x, s.agents, s.lostAt, w)
    ensures WaiterOK(s'.x, s'.agents, s'.lostAt, w)
  {
    if w.Blocked? && w.count < s.x.notify && w.count >= s'.lostAt {
      var i :| 0 <= i < |s.agents| && Waking(s.agents[i]);
      assert s'.agents[i] == s.agents[i];
    }
  }

  /** The kernel compares only 32 bits; when fewer than 2^32 notifications were missed it blocks
      exactly when none was. */
  lemma BlocksIffCurrent(x: Slot, low: nat, count: nat, w': Waiter)
    requires low == count % TWO32 && count <= x.notify
    requires WaitStep(x, Snapped(low, count), w')
    ensures w'.Blocked? <==> (x.notify - count) % TWO32 == 0
    ensures x.notify - count < TWO32 ==> (w'.Blocked? <==> x.notify == count)
    ensures w' == if w'.Blocked? then Blocked(low, count) else Returned(count, true)
  {
    SameResidue(x.notify, count);
  }

  lemma SameResidue(x: nat, y: nat)
    requires y <= x
    ensures x % TWO32 == y % TWO32 <==> (x - y) % TWO32 == 0
  {
  }

  lemma WaitKeeps(s: System, w: nat, s': System, threshold: nat)
    requires Next(s, threshold, ByWaiter(w), s') && Timely(s, ByWaiter(w))
    requires WaiterOK(s.x, s.agents, s.lostAt, s.waiters[w])
    ensures WaiterOK(s.x, s.agents, s.lostAt, s'.waiters[w])
  {}

  lemma InitInv(s: System)
    requires Init(s)
    ensures Inv(s) && WaitInv(s)
  {
  }

  lemma AgentMoveKeeps(s: System, threshold: nat, a: nat, s': System)
    requires Inv(s) && AgentMove(s, threshold, a, s') && Sole(s, ByAgent(a)) && ParityHolds(s, ByAgent(a))
    ensures Inv(s')
  {
    AgentsKept(s, threshold, a, s');
    AgentKeepsMarks(s.x, s.clock, threshold, s.agents[a], s'.x, s'.agents[a]);
    forall r | 0 <= r < |s'.readers| ensures ReaderOK(s'.x, s'.readers[r]) {
      ReaderKept(s.x, s'.x, s.readers[r]);
    }
  }

  /** One step whose taker, if any, is alone and finds the parity that it loaded. */
  lemma StepKeeps(s: System, threshold: nat, actor: Actor, s': System)
    requires Inv(s) && Next(s, threshold, actor, s') && Sole(s, actor) && ParityHolds(s, actor)
    ensures Inv(s')
  {
    match actor
    case ByAgent(a) => AgentMoveKeeps(s, threshold, a, s');
    case Crash(a) =>
    case ByReader(r) => ReadKeeps(s.x, s.clock, threshold, s.readers[r], s'.readers[r]);
    case ByWaiter(w) =>
    case Tick =>
  }

  /** One step of a timely run. */
  lemma StepKeepsWaiters(s: System, threshold: nat, actor: Actor, s': System)
    requires WaitInv(s) && Next(s, threshold, actor, s') && Timely(s, actor)
    ensures WaitInv(s')
  {
    match actor
    case ByAgent(a) =>
      forall w | 0 <= w < |s'.waiters| ensures WaiterOK(s'.x, s'.agents, s'.lostAt, s'.waiters[w]) {
        WaiterKept(s, threshold, a, s', s.waiters[w]);
      }
    case Crash(a) =>
      forall w | 0 <= w < |s'.waiters| ensures WaiterOK(s'.x, s'.agents, s'.lostAt, s'.waiters[w]) {
        CrashKeepsWaiter(s, a, s', s.waiters[w]);
      }
    case ByReader(r) =>
    case ByWaiter(w) => WaitKeeps(s, w, s', threshold);
    case Tick =>
  }

  /** In a step whose taker is alone, the invariant is kept exactly when the parity holds. */
  lemma StepKeepsExactly(s: System, threshold: nat, actor: Actor, s': System)
    requires Inv(s) && Next(s, threshold, actor, s') && Sole(s, actor)
    ensures Inv(s') <==> ParityHolds(s, actor)
  {
    if ParityHolds(s, actor) {
      StepKeeps(s, threshold, actor, s');
    } else {
      var a := actor.a;
      AgentKeepsSlot(s.x, s.clock, threshold, s.agents[a], s'.x, s'.agents[a]);
      assert !AgentOK(s'.x, s'.agents[a]);
    }
  }
}
