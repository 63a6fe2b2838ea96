/** Concrete runs of `SharedLatest` that show where its guarantees end. */
module LatestWitness {
  import opened LatestSlot

  /** What is promised of a run: nothing, or that takers are sole writers, or that takes are
      undisturbed and waits timely. */
  datatype Rule = Free | SoleWriter | Calm

  /** While somebody claims, nobody owns. */
  predicate Settled(agents: seq<Agent>) {
    forall i :: 0 <= i < |agents| && Claiming(agents[i]) ==> NoOwner(agents)
  }

  predicate Allowed(rule: Rule, s: System, actor: Actor) {
    match rule
    case Free => true
    case SoleWriter => Sole(s, actor)
    case Calm => Settled(s.agents) && Timely(s, actor)
  }

  predicate RuledRun(rule: Rule, ss: seq<System>, threshold: nat, actors: seq<Actor>) {
    Run(ss, threshold, actors) && forall i :: 0 <= i < |actors| ==> Allowed(rule, ss[i], actors[i])
  }

  ghost predicate Reached(rule: Rule, s: System, threshold: nat) {
    exists ss, actors :: RuledRun(rule, ss, threshold, actors) && ss[|ss| - 1] == s
  }

  lemma CalmIsUndisturbed(ss: seq<System>, threshold: nat, actors: seq<Actor>)
    requires RuledRun(Calm, ss, threshold, actors)
    ensures UndisturbedRun(ss, actors) && TimelyRun(ss, actors)
  {
    forall i | 0 <= i < |actors| && TakesAt(ss, actors, i) ensures Quiet(ss, i, actors[i].a) {
      forall k | 0 <= k <= i && ClaimStretch(ss, k, i, actors[i].a) ensures NoOwner(ss[k].agents) {
        assert Allowed(Calm, ss[k], actors[k]) && Claiming(ss[k].agents[actors[i].a]);
      }
    }
    assert forall i :: 0 <= i < |actors| ==> Allowed(Calm, ss[i], actors[i]);
  }

  lemma SoleWriterIsSole(ss: seq<System>, threshold: nat, actors: seq<Actor>)
    requires RuledRun(SoleWriter, ss, threshold, actors)
    ensures SoleRun(ss, actors, |actors|)
  {
    assert forall i :: 0 <= i < |actors| ==> Allowed(SoleWriter, ss[i], actors[i]);
  }

  lemma Extend(rule: Rule, s: System, threshold: nat, actor: Actor, s': System)
    requires Reached(rule, s, threshold) && Next(s, threshold, actor, s') && Allowed(rule, s, actor)
    ensures Reached(rule, s', threshold)
  {
    hide Next, Allowed, Init;
    var ss, actors :| RuledRun(rule, ss, threshold, actors) && ss[|ss| - 1] == s;
    var rs, bs := ss + [s'], actors + [actor];
    assert forall i :: 0 <= i < |ss| ==> rs[i] == ss[i];
    assert forall i :: 0 <= i < |actors| ==> bs[i] == actors[i];
    assert RuledRun(rule, rs, threshold, bs);
  }

  // ---- Two writers and a reader -----------------------------------------------------------------

  /** Two words, two writers, one reader that tries once. */
  function Demo(x: Slot, clock: nat, a: Agent, b: Agent, pc: ReadPc): System {
    System(x, clock, [a, b], [Reader(pc, false, 1, 0, 0)], [], 0)
  }

  function DemoSlot(sequence: nat, mem: seq<int>, heartbeat: nat): Slot {
    Slot(2, sequence, mem, heartbeat, 0, 0, [[0, 0]], [])
  }

  ghost predicate Shown(rule: Rule, x: Slot, clock: nat, a: Agent, b: Agent, pc: ReadPc) {
    Reached(rule, Demo(x, clock, a, b, pc), 1)
  }

  lemma DemoStart(rule: Rule)
    ensures Shown(rule, DemoSlot(0, [0, 0], 0), 1, Off, Off, Resting)
  {
    var s := Demo(DemoSlot(0, [0, 0], 0), 1, Off, Off, Resting);
    assert Zeros(2) == [0, 0];
    assert RuledRun(rule, [s], 1, []);
  }

  predicate Permits(rule: Rule, x: Slot, a: Agent, b: Agent) {
    match rule
    case Free => true
    case SoleWriter => Takes(x, a) ==> !Owns(b)
    case Calm => (Claiming(a) ==> !Owns(b)) && (Claiming(b) ==> !Owns(a))
  }

  lemma First(rule: Rule, x: Slot, clock: nat, a: Agent, b: Agent, pc: ReadPc, x': Slot, a': Agent)
    requires Shown(rule, x, clock, a, b, pc) && AgentStep(x, clock, 1, a, x', a')
    requires Permits(rule, x, a, b) && !Waking(a)
    ensures Shown(rule, x', clock, a', b, pc)
  {
    hide Reached, AgentStep;
    var s, s' := Demo(x, clock, a, b, pc), Demo(x', clock, a', b, pc);
    assert s'.agents == s.agents[0 := a'];
    Extend(rule, s, 1, ByAgent(0), s');
  }

  lemma Second(rule: Rule, x: Slot, clock: nat, a: Agent, b: Agent, pc: ReadPc, x': Slot, b': Agent)
    requires Shown(rule, x, clock, a, b, pc) && AgentStep(x, clock, 1, b, x', b')
    requires Permits(rule, x, b, a) && !Waking(b)
    ensures Shown(rule, x', clock, a, b', pc)
  {
    hide Reached, AgentStep;
    var s, s' := Demo(x, clock, a, b, pc), Demo(x', clock, a, b', pc);
    assert s'.agents == s.agents[1 := b'];
    Extend(rule, s, 1, ByAgent(1), s');
  }

  lemma Reads(rule: Rule, x: Slot, clock: nat, a: Agent, b: Agent, pc: ReadPc, pc': ReadPc)
    requires rule == Calm ==> Permits(Calm, x, a, b)
    requires Shown(rule, x, clock, a, b, pc)
    requires ReadStep(x, clock, 1, Reader(pc, false, 1, 0, 0), Reader(pc', false, 1, 0, 0))
    ensures Shown(rule, x, clock, a, b, pc')
  {
    hide Reached, ReadStep;
    var s, s' := Demo(x, clock, a, b, pc), Demo(x, clock, a, b, pc');
    assert s'.readers == s.readers[0 := s'.readers[0]];
    Extend(rule, s, 1, ByReader(0), s');
  }

  lemma FirstDies(rule: Rule, x: Slot, clock: nat, a: Agent, b: Agent, pc: ReadPc, later: nat)
    requires Shown(rule, x, clock, a, b, pc) && !Waking(a) && clock <= later
    requires rule == Calm ==> Permits(Calm, x, a, b)
    ensures Shown(rule, x, later, Off, b, pc)
  {
    hide Reached;
    var s, s' := Demo(x, clock, a, b, pc), Demo(x, clock, Off, b, pc);
    assert s'.agents == s.agents[0 := Off];
    Extend(rule, s, 1, Crash(0), s');
    Extend(rule, s', 1, Tick, Demo(x, later, Off, b, pc));
  }

  /** The first writer resumes the fresh slot. */
  lemma FirstResumes(rule: Rule)
    ensures Shown(rule, DemoSlot(0, [0, 0], 1), 1, Ready, Off, Resting)
  {
    hide Shown;
    DemoStart(rule);
    var x, y := DemoSlot(0, [0, 0], 0), DemoSlot(0, [0, 0], 1);
    First(rule, x, 1, Off, Off, Resting, x, ClaimSequence);
    First(rule, x, 1, ClaimSequence, Off, Resting, x, Resume);
    First(rule, x, 1, Resume, Off, Resting, x, ResumeStore(1));
    First(rule, x, 1, ResumeStore(1), Off, Resting, y, Ready);
  }

  // ---- Two writers ------------------------------------------------------------------------------

  lemma BothResume()
    ensures Shown(Free, DemoSlot(0, [0, 0], 1), 1, Ready, Ready, Resting)
  {
    hide Shown;
    FirstResumes(Free);
    var y := DemoSlot(0, [0, 0], 1);
    Second(Free, y, 1, Ready, Off, Resting, y, ClaimSequence);
    Second(Free, y, 1, Ready, ClaimSequence, Resting, y, Resume);
    Second(Free, y, 1, Ready, Resume, Resting, y, ResumeStore(1));
    Second(Free, y, 1, Ready, ResumeStore(1), Resting, y, Ready);
  }

  /** The slot is not exclusive on the even path: two claimants can both become the writer. */
  lemma TwoResumersBothOwn() returns (ss: seq<System>, actors: seq<Actor>)
    ensures Run(ss, 1, actors)
    ensures var s := ss[|ss| - 1]; |s.agents| == 2 && s.agents[0] == Ready && s.agents[1] == Ready
  {
    BothResume();
    var s := Demo(DemoSlot(0, [0, 0], 1), 1, Ready, Ready, Resting);
    ss, actors :| RuledRun(Free, ss, 1, actors) && ss[|ss| - 1] == s;
  }

  // ---- A torn read across a recovery ------------------------------------------------------------------

  /** First part: the reader has copied word 0 of the empty slot. */
  lemma TornReadBegins()
    ensures Shown(Calm, DemoSlot(0, [0, 0], 1), 1, Ready, Off, CopyWords(0, 0, 0, [0]))
  {
    hide Shown;
    FirstResumes(Calm);
    var y := DemoSlot(0, [0, 0], 1);
    Reads(Calm, y, 1, Ready, Off, Resting, LoadSequence(0));
    Reads(Calm, y, 1, Ready, Off, LoadSequence(0), CopyWords(0, 0, 0, []));
    assert [] + [y.mem[0]] == [0];
    Reads(Calm, y, 1, Ready, Off, CopyWords(0, 0, 0, []), CopyWords(0, 0, 0, [0]));
  }

  /** A writer that owns the slot opens a write and copies both words, without committing. */
  lemma WriteOpens(rule: Rule, b: Agent, pc: ReadPc)
    requires Shown(rule, DemoSlot(0, [0, 0], 1), 1, Ready, b, pc) && !Claiming(b)
    ensures Shown(rule, DemoSlot(1, [7, 8], 1), 1, WriteCopy([7, 8], 0, 2, false), b, pc)
  {
    hide Shown;
    var v := [7, 8];
    var y, z0 := DemoSlot(0, [0, 0], 1), DemoSlot(1, [0, 0], 1);
    First(rule, y, 1, Ready, b, pc, y, WriteLoad(v, false));
    First(rule, y, 1, WriteLoad(v, false), b, pc, y, WriteOpen(v, 0, false));
    First(rule, y, 1, WriteOpen(v, 0, false), b, pc, z0, WriteCopy(v, 0, 0, false));
    WriteCopies(rule, b, pc);
  }

  lemma WriteCopies(rule: Rule, b: Agent, pc: ReadPc)
    requires Shown(rule, DemoSlot(1, [0, 0], 1), 1, WriteCopy([7, 8], 0, 0, false), b, pc) && !Claiming(b)
    ensures Shown(rule, DemoSlot(1, [7, 8], 1), 1, WriteCopy([7, 8], 0, 2, false), b, pc)
  {
    hide Shown;
    var v := [7, 8];
    var z0, z1, z2 := DemoSlot(1, [0, 0], 1), DemoSlot(1, [7, 0], 1), DemoSlot(1, [7, 8], 1);
    assert z0.mem[0 := 7] == z1.mem && z1.mem[1 := 8] == z2.mem;
    First(rule, z0, 1, WriteCopy(v, 0, 0, false), b, pc, z1, WriteCopy(v, 0, 1, false));
    First(rule, z1, 1, WriteCopy(v, 0, 1, false), b, pc, z2, WriteCopy(v, 0, 2, false));
  }

  /** Second part: a write overwrites both words, the reader copies word 1, the writer dies. */
  lemma TornReadContinues()
    ensures Shown(Calm, DemoSlot(1, [7, 8], 1), 2, Off, Off, CopyWords(0, 0, 0, [0, 8]))
  {
    hide Shown;
    TornReadBegins();
    var v, pc, pc' := [7, 8], CopyWords(0, 0, 0, [0]), CopyWords(0, 0, 0, [0, 8]);
    var z2 := DemoSlot(1, [7, 8], 1);
    WriteOpens(Calm, Off, pc);
    assert [0] + [z2.mem[1]] == [0, 8];
    Reads(Calm, z2, 1, WriteCopy(v, 0, 2, false), Off, pc, pc');
    FirstDies(Calm, z2, 1, WriteCopy(v, 0, 2, false), Off, pc', 2);
  }

  /** Third part: another process recovers the slot. */
  lemma TornReadRecovers()
    ensures Shown(Calm, DemoSlot(0, [0, 0], 2).(epoch := 1), 2, Off, ResetNotify, CopyWords(0, 0, 0, [0, 8]))
  {
    hide Shown;
    TornReadContinues();
    var pc := CopyWords(0, 0, 0, [0, 8]);
    var z, z0, z1, z2 := DemoSlot(1, [7, 8], 1), DemoSlot(1, [7, 8], 2), DemoSlot(1, [0, 8], 2), DemoSlot(1, [0, 0], 2);
    Second(Calm, z, 2, Off, Off, pc, z, ClaimSequence);
    Second(Calm, z, 2, Off, ClaimSequence, pc, z, ClaimHeartbeat);
    Second(Calm, z, 2, Off, ClaimHeartbeat, pc, z, ClaimNow(1));
    Second(Calm, z, 2, Off, ClaimNow(1), pc, z, ClaimSwap(1, 2));
    Second(Calm, z, 2, Off, ClaimSwap(1, 2), pc, z0, Wipe(0));
    assert z0.mem[0 := 0] == z1.mem && z1.mem[1 := 0] == z2.mem;
    Second(Calm, z0, 2, Off, Wipe(0), pc, z1, Wipe(1));
    Second(Calm, z1, 2, Off, Wipe(1), pc, z2, Wipe(2));
    assert Zeros(2) == [0, 0];
    Second(Calm, z2, 2, Off, Wipe(2), pc, DemoSlot(0, [0, 0], 2).(epoch := 1), ResetNotify);
  }

  /** Equal sequence loads prove nothing across a recovery: in an undisturbed run whose only write
      never committed, a read succeeds with a payload that was never in the slot. */
  lemma TornAcrossRecovery() returns (ss: seq<System>, actors: seq<Actor>)
    ensures Run(ss, 1, actors) && UndisturbedRun(ss, actors)
    ensures var s := ss[|ss| - 1];
      && |s.readers| == 1 && s.readers[0].pc == Done(Success, 0, 0, [0, 8])
      && s.x.epoch == 1 && s.x.vals == [[0, 0]]
  {
    var x := DemoSlot(0, [0, 0], 2).(epoch := 1);
    var s := Demo(x, 2, Off, ResetNotify, Done(Success, 0, 0, [0, 8]));
    TornReadRecovers();
    Reads(Calm, x, 2, Off, ResetNotify, CopyWords(0, 0, 0, [0, 8]), Done(Success, 0, 0, [0, 8]));
    ss, actors :| RuledRun(Calm, ss, 1, actors) && ss[|ss| - 1] == s;
    CalmIsUndisturbed(ss, 1, actors);
  }

  // ---- A claimant that acts on an old parity --------------------------------------------------------

  function Committed(heartbeat: nat, mem: seq<int>): Slot {
    DemoSlot(2, mem, heartbeat).(vals := [[0, 0], [7, 8]])
  }

  /** A claimant sees an odd sequence and a stale heartbeat while the writer is about to commit. */
  lemma LateRecoveryPrepared()
    ensures Shown(SoleWriter, DemoSlot(1, [7, 8], 1), 2, WriteCopy([7, 8], 0, 2, false), ClaimSwap(1, 2), Resting)
  {
    hide Shown;
    FirstResumes(SoleWriter);
    WriteOpens(SoleWriter, Off, Resting);
    var a, z := WriteCopy([7, 8], 0, 2, false), DemoSlot(1, [7, 8], 1);
    Later(SoleWriter, z, 1, a, Off, Resting, 2);
    Second(SoleWriter, z, 2, a, Off, Resting, z, ClaimSequence);
    Second(SoleWriter, z, 2, a, ClaimSequence, Resting, z, ClaimHeartbeat);
    Second(SoleWriter, z, 2, a, ClaimHeartbeat, Resting, z, ClaimNow(1));
    Second(SoleWriter, z, 2, a, ClaimNow(1), Resting, z, ClaimSwap(1, 2));
  }

  lemma Later(rule: Rule, x: Slot, clock: nat, a: Agent, b: Agent, pc: ReadPc, later: nat)
    requires Shown(rule, x, clock, a, b, pc) && clock <= later && rule != Calm
    ensures Shown(rule, x, later, a, b, pc)
  {
    hide Reached;
    Extend(rule, Demo(x, clock, a, b, pc), 1, Tick, Demo(x, later, a, b, pc));
  }

  /** The writer commits and dies before its heartbeat; the exchange succeeds and the wipe begins
      while the sequence is even. */
  lemma LateRecoveryWipes()
    ensures Shown(SoleWriter, Committed(2, [0, 8]), 2, Off, Wipe(1), Resting)
  {
    hide Shown;
    LateRecoveryPrepared();
    var v, z := [7, 8], DemoSlot(1, [7, 8], 1);
    var y, y', y'' := Committed(1, [7, 8]), Committed(2, [7, 8]), Committed(2, [0, 8]);
    assert z.vals + [v] == y.vals;
    First(SoleWriter, z, 2, WriteCopy(v, 0, 2, false), ClaimSwap(1, 2), Resting, y, WriteBeat(2, false));
    FirstDies(SoleWriter, y, 2, WriteBeat(2, false), ClaimSwap(1, 2), Resting, 2);
    Second(SoleWriter, y, 2, Off, ClaimSwap(1, 2), Resting, y', Wipe(0));
    assert y'.mem[0 := 0] == y''.mem;
    Second(SoleWriter, y', 2, Off, Wipe(0), Resting, y'', Wipe(1));
  }

  /** A recovery that acts on an old odd sequence: with a sole writer throughout and no reset of the
      sequence, a read succeeds with a payload that was never written. */
  lemma TornByLateRecovery() returns (ss: seq<System>, actors: seq<Actor>)
    ensures Run(ss, 1, actors) && SoleRun(ss, actors, |actors|)
    ensures var s := ss[|ss| - 1];
      && |s.readers| == 1 && s.readers[0].pc == Done(Success, 2, 0, [0, 8])
      && s.x.epoch == 0 && s.x.vals == [[0, 0], [7, 8]]
  {
    LateRecoveryWipes();
    var y := Committed(2, [0, 8]);
    LateReads(y);
    var s := System(y, 2, [Off, Wipe(1)], [Reader(Done(Success, 2, 0, [0, 8]), false, 1, 0, 2)], [], 0);
    ss, actors :| RuledRun(SoleWriter, ss, 1, actors) && ss[|ss| - 1] == s;
    SoleWriterIsSole(ss, 1, actors);
  }

  lemma HalfWipedReads(y: Slot, b: Agent)
    requires y == Committed(2, [0, 8]) && Shown(SoleWriter, y, 2, Off, b, Resting)
    ensures Shown(SoleWriter, y, 2, Off, b, CopyWords(0, 2, 0, [0, 8]))
  {
    hide Shown;
    Reads(SoleWriter, y, 2, Off, b, Resting, LoadSequence(0));
    Reads(SoleWriter, y, 2, Off, b, LoadSequence(0), CopyWords(0, 2, 0, []));
    assert [] + [y.mem[0]] == [0] && [0] + [y.mem[1]] == [0, 8];
    Reads(SoleWriter, y, 2, Off, b, CopyWords(0, 2, 0, []), CopyWords(0, 2, 0, [0]));
    Reads(SoleWriter, y, 2, Off, b, CopyWords(0, 2, 0, [0]), CopyWords(0, 2, 0, [0, 8]));
  }

  /** The reader copies both words of the half-wiped slot and finds the sequence unchanged. */
  lemma LateReads(y: Slot)
    requires y == Committed(2, [0, 8]) && Shown(SoleWriter, y, 2, Off, Wipe(1), Resting)
    ensures Reached(SoleWriter, System(y, 2, [Off, Wipe(1)], [Reader(Done(Success, 2, 0, [0, 8]), false, 1, 0, 2)], [], 0), 1)
  {
    var b := Wipe(1);
    HalfWipedReads(y, b);
    hide Reached;
    var s := Demo(y, 2, Off, b, CopyWords(0, 2, 0, [0, 8]));
    var s' := System(y, 2, [Off, b], [Reader(Done(Success, 2, 0, [0, 8]), false, 1, 0, 2)], [], 0);
    assert s'.readers == s.readers[0 := s'.readers[0]];
    Extend(SoleWriter, s, 1, ByReader(0), s');
  }

  /** A claimant sees an even sequence; another process takes the slot first. */
  lemma LateResumeBegins()
    ensures Shown(SoleWriter, DemoSlot(0, [0, 0], 1), 1, Ready, ResumeStore(1), Resting)
  {
    hide Shown;
    DemoStart(SoleWriter);
    var b, x, y := ResumeStore(1), DemoSlot(0, [0, 0], 0), DemoSlot(0, [0, 0], 1);
    Second(SoleWriter, x, 1, Off, Off, Resting, x, ClaimSequence);
    Second(SoleWriter, x, 1, Off, ClaimSequence, Resting, x, Resume);
    Second(SoleWriter, x, 1, Off, Resume, Resting, x, b);
    First(SoleWriter, x, 1, Off, b, Resting, x, ClaimSequence);
    First(SoleWriter, x, 1, ClaimSequence, b, Resting, x, Resume);
    First(SoleWriter, x, 1, Resume, b, Resting, x, ResumeStore(1));
    First(SoleWriter, x, 1, ResumeStore(1), b, Resting, y, Ready);
  }

  /** The other process opens a write and dies. */
  lemma LateResumePrepared()
    ensures Shown(SoleWriter, DemoSlot(1, [0, 0], 1), 1, Off, ResumeStore(1), Resting)
  {
    hide Shown;
    LateResumeBegins();
    var v, b := [7, 8], ResumeStore(1);
    var y, z := DemoSlot(0, [0, 0], 1), DemoSlot(1, [0, 0], 1);
    First(SoleWriter, y, 1, Ready, b, Resting, y, WriteLoad(v, false));
    First(SoleWriter, y, 1, WriteLoad(v, false), b, Resting, y, WriteOpen(v, 0, false));
    First(SoleWriter, y, 1, WriteOpen(v, 0, false), b, Resting, z, WriteCopy(v, 0, 0, false));
    FirstDies(SoleWriter, z, 1, WriteCopy(v, 0, 0, false), b, Resting, 1);
  }

  /** It resumes on the odd sequence; its write then opens at an even number. */
  lemma LateResumeWrites()
    ensures Shown(SoleWriter, DemoSlot(2, [7, 0], 1), 1, Off, WriteCopy([7, 8], 1, 1, false), Resting)
  {
    hide Shown;
    LateResumePrepared();
    var v := [7, 8];
    var z, u, u' := DemoSlot(1, [0, 0], 1), DemoSlot(2, [0, 0], 1), DemoSlot(2, [7, 0], 1);
    Second(SoleWriter, z, 1, Off, ResumeStore(1), Resting, z, Ready);
    Second(SoleWriter, z, 1, Off, Ready, Resting, z, WriteLoad(v, false));
    Second(SoleWriter, z, 1, Off, WriteLoad(v, false), Resting, z, WriteOpen(v, 1, false));
    Second(SoleWriter, z, 1, Off, WriteOpen(v, 1, false), Resting, u, WriteCopy(v, 1, 0, false));
    assert u.mem[0 := 7] == u'.mem;
    Second(SoleWriter, u, 1, Off, WriteCopy(v, 1, 0, false), Resting, u', WriteCopy(v, 1, 1, false));
  }

  lemma HalfWrittenReads(y: Slot, b: Agent)
    requires y == DemoSlot(2, [7, 0], 1) && Shown(SoleWriter, y, 1, Off, b, Resting)
    ensures Shown(SoleWriter, y, 1, Off, b, CopyWords(0, 2, 0, [7, 0]))
  {
    hide Shown;
    Reads(SoleWriter, y, 1, Off, b, Resting, LoadSequence(0));
    Reads(SoleWriter, y, 1, Off, b, LoadSequence(0), CopyWords(0, 2, 0, []));
    assert [] + [y.mem[0]] == [7] && [7] + [y.mem[1]] == [7, 0];
    Reads(SoleWriter, y, 1, Off, b, CopyWords(0, 2, 0, []), CopyWords(0, 2, 0, [7]));
    Reads(SoleWriter, y, 1, Off, b, CopyWords(0, 2, 0, [7]), CopyWords(0, 2, 0, [7, 0]));
  }

  /** A resume that acts on an old even sequence: the next write copies at an even number, and a read
      succeeds with half of it, again with a sole writer throughout. */
  lemma TornByLateResume() returns (ss: seq<System>, actors: seq<Actor>)
    ensures Run(ss, 1, actors) && SoleRun(ss, actors, |actors|)
    ensures var s := ss[|ss| - 1];
      && |s.readers| == 1 && s.readers[0].pc == Done(Success, 2, 0, [7, 0])
      && s.x.epoch == 0 && s.x.vals == [[0, 0]]
  {
    var y, b := DemoSlot(2, [7, 0], 1), WriteCopy([7, 8], 1, 1, false);
    LateResumeWrites();
    HalfWrittenReads(y, b);
    var s := Demo(y, 1, Off, b, CopyWords(0, 2, 0, [7, 0]));
    var s' := System(y, 1, [Off, b], [Reader(Done(Success, 2, 0, [7, 0]), false, 1, 0, 2)], [], 0);
    assert s'.readers == s.readers[0 := s'.readers[0]];
    Extend(SoleWriter, s, 1, ByReader(0), s');
    ss, actors :| RuledRun(SoleWriter, ss, 1, actors) && ss[|ss| - 1] == s';
    SoleWriterIsSole(ss, 1, actors);
  }

  // ---- A lost wake-up ---------------------------------------------------------------------------

  /** One writer of an empty payload and one waiter. */
  function WaitDemo(x: Slot, a: Agent, w: Waiter, lostAt: nat): System {
    System(x, 1, [a], [], [w], lostAt)
  }

  function WaitSlot(sequence: nat, heartbeat: nat, vals: seq<seq<int>>): Slot {
    Slot(0, sequence, [], heartbeat, 0, 0, vals, [])
  }

  ghost predicate Waits(x: Slot, a: Agent, w: Waiter) {
    Reached(Calm, WaitDemo(x, a, w, 0), 1)
  }

  lemma Notifier(x: Slot, a: Agent, w: Waiter, x': Slot, a': Agent)
    requires Waits(x, a, w) && AgentStep(x, 1, 1, a, x', a') && !Waking(a)
    ensures Waits(x', a', w)
  {
    hide Reached, AgentStep;
    var s, s' := WaitDemo(x, a, w, 0), WaitDemo(x', a', w, 0);
    assert s'.agents == s.agents[0 := a'];
    Extend(Calm, s, 1, ByAgent(0), s');
  }

  lemma WaiterBlocks()
    ensures Waits(WaitSlot(0, 0, [[]]), Off, Blocked(0, 0))
  {
    var x := WaitSlot(0, 0, [[]]);
    var s, s', s'' := WaitDemo(x, Off, Awake, 0), WaitDemo(x, Off, Snapped(0, 0), 0), WaitDemo(x, Off, Blocked(0, 0), 0);
    assert Zeros(0) == [];
    assert RuledRun(Calm, [s], 1, []);
    assert s'.waiters == s.waiters[0 := s'.waiters[0]] && s''.waiters == s'.waiters[0 := s''.waiters[0]];
    hide Reached;
    assert Reached(Calm, s, 1) by { StartsReached(s); }
    Extend(Calm, s, 1, ByWaiter(0), s');
    Extend(Calm, s', 1, ByWaiter(0), s'');
  }

  lemma StartsReached(s: System)
    requires RuledRun(Calm, [s], 1, [])
    ensures Reached(Calm, s, 1)
  {}

  lemma NotifierCounts()
    ensures Waits(WaitSlot(2, 1, [[], []]).(notify := 1, marks := [(0, 2)]), WriteWake, Blocked(0, 0))
  {
    hide Waits;
    WaiterBlocks();
    var w, v: seq<int> := Blocked(0, 0), [];
    var x0, x1, x2, x3 := WaitSlot(0, 0, [[]]), WaitSlot(0, 1, [[]]), WaitSlot(1, 1, [[]]), WaitSlot(2, 1, [[], []]);
    Notifier(x0, Off, w, x0, ClaimSequence);
    Notifier(x0, ClaimSequence, w, x0, Resume);
    Notifier(x0, Resume, w, x0, ResumeStore(1));
    Notifier(x0, ResumeStore(1), w, x1, Ready);
    Notifier(x1, Ready, w, x1, WriteLoad(v, true));
    Notifier(x1, WriteLoad(v, true), w, x1, WriteOpen(v, 0, true));
    Notifier(x1, WriteOpen(v, 0, true), w, x2, WriteCopy(v, 0, 0, true));
    assert x2.vals + [v] == x3.vals;
    Notifier(x2, WriteCopy(v, 0, 0, true), w, x3, WriteBeat(2, true));
    Notifier(x3, WriteBeat(2, true), w, x3, WriteBeatStore(2, 1, true));
    Notifier(x3, WriteBeatStore(2, 1, true), w, x3, WriteNotify(2));
    var x4 := x3.(notify := 1, marks := [(0, 2)]);
    assert x3.marks + [(0, 2)] == x4.marks;
    Notifier(x3, WriteNotify(2), w, x4, WriteWake);
  }

  /** A wake-up is lost if the notifier dies between counting and waking: in an undisturbed, timely
      run the waiter is blocked behind a committed, counted write and nobody is left to wake it. */
  lemma WakeUpLost() returns (ss: seq<System>, actors: seq<Actor>)
    ensures Run(ss, 1, actors) && UndisturbedRun(ss, actors) && TimelyRun(ss, actors)
    ensures var s := ss[|ss| - 1];
      && |s.waiters| == 1 && s.waiters[0] == Blocked(0, 0) && s.x.notify == 1 && s.x.sequence == 2
      && s.agents == [Off]
  {
    NotifierCounts();
    var x := WaitSlot(2, 1, [[], []]).(notify := 1, marks := [(0, 2)]);
    var s, s' := WaitDemo(x, WriteWake, Blocked(0, 0), 0), WaitDemo(x, Off, Blocked(0, 0), 1);
    assert s'.agents == s.agents[0 := Off];
    Extend(Calm, s, 1, Crash(0), s');
    ss, actors :| RuledRun(Calm, ss, 1, actors) && ss[|ss| - 1] == s';
    CalmIsUndisturbed(ss, 1, actors);
  }
}
