/** `SharedLatest`: a seqlock slot with a heartbeat and a futex notification word.

    Every load, store and read-modify-write is one step and payloads are copied one word at a
    time, so that torn copies are possible. Any number of processes may claim the slot, write and
    die; any number of readers copy it; any number of waiters block on the notification word.

    `vals` is the history of the values committed since the last recovery, the zeroed slot first;
    `epoch` counts recoveries; `marks` records, for each notification, the epoch and the sequence
    number at which it was made. None of the three is read by the modelled code. */
module LatestSlot {
  import opened Arithmetic

  datatype Slot = Slot(
    n: nat,
    sequence: nat, mem: seq<int>, heartbeat: nat, notify: nat,
    epoch: nat, vals: seq<seq<int>>, marks: seq<(nat, nat)>)

  function Zeros(n: nat): (z: seq<int>)
    ensures |z| == n && forall i :: 0 <= i < n ==> z[i] == 0
  {
    seq(n, i => 0)
  }

  // ---- Writers --------------------------------------------------------------------------

  /** A process on the writing side: claiming the slot, owning it, or neither. */
  datatype Agent =
    | Off
    | ClaimSequence
    | Resume
    | ResumeStore(now: nat)
    | ClaimHeartbeat
    | ClaimNow(seen: nat)
    | ClaimSwap(seen: nat, now: nat)
    | Wipe(k: nat)
    | ResetNotify
    | ResetWake
    | Ready
    | WriteLoad(v: seq<int>, notifies: bool)
    | WriteOpen(v: seq<int>, s: nat, notifies: bool)
    | WriteCopy(v: seq<int>, s: nat, k: nat, notifies: bool)
    | WriteBeat(done: nat, notifies: bool)
    | WriteBeatStore(done: nat, now: nat, notifies: bool)
    | WriteNotify(done: nat)
    | WriteWake

  predicate Notifies(x: Slot, x': Slot) {
    x' == x.(notify := x.notify + 1, marks := x.marks + [(x.epoch, x.sequence)])
  }

  /** One atomic step of an agent at clock value `clock`; `threshold` is the death threshold. */
  predicate AgentStep(x: Slot, clock: nat, threshold: nat, a: Agent, x': Slot, a': Agent) {
    match a
    case Off => x' == x && (a' == Off || a' == ClaimSequence)
    case ClaimSequence => x' == x && a' == (if x.sequence % 2 == 0 then Resume else ClaimHeartbeat)
    case Resume => x' == x && a' == ResumeStore(clock)
    case ResumeStore(now) => x' == x.(heartbeat := now) && a' == Ready
    case ClaimHeartbeat => x' == x && a' == ClaimNow(x.heartbeat)
    case ClaimNow(seen) =>
      // A fresh, non-zero heartbeat means a live writer: the claim throws.
      x' == x && a' == (if seen != 0 && Diff64(clock, seen) < threshold then Off else ClaimSwap(seen, clock))
    case ClaimSwap(seen, now) =>
      if x.heartbeat == seen then x' == x.(heartbeat := now) && a' == Wipe(0)
      else x' == x && a' == Off
    case Wipe(k) =>
      if k < |x.mem| then x' == x.(mem := x.mem[k := 0]) && a' == Wipe(k + 1)
      else x' == x.(sequence := 0, epoch := x.epoch + 1, vals := [Zeros(x.n)]) && a' == ResetNotify
    case ResetNotify => Notifies(x, x') && a' == ResetWake
    case ResetWake => x' == x && a' == Ready
    case Ready => x' == x && (a' == Ready || (a'.WriteLoad? && |a'.v| == x.n))
    case WriteLoad(v, nt) => x' == x && a' == WriteOpen(v, x.sequence, nt)
    case WriteOpen(v, s, nt) => x' == x.(sequence := s + 1) && a' == WriteCopy(v, s, 0, nt)
    case WriteCopy(v, s, k, nt) =>
      if k < |v| then
        k < |x.mem| && x' == x.(mem := x.mem[k := v[k]]) && a' == WriteCopy(v, s, k + 1, nt)
      else
        x' == x.(sequence := s + 2, vals := x.vals + [v]) && a' == WriteBeat(s + 2, nt)
    case WriteBeat(done, nt) => x' == x && a' == WriteBeatStore(done, clock, nt)
    case WriteBeatStore(done, now, nt) =>
      x' == x.(heartbeat := now) && a' == (if nt then WriteNotify(done) else Ready)
    case WriteNotify(_) => Notifies(x, x') && a' == WriteWake
    case WriteWake => x' == x && a' == Ready
  }

  /** The agent acts as the writer of the slot. */
  predicate Owns(a: Agent) {
    !(a.Off? || a.ClaimSequence? || a.Resume? || a.ResumeStore? || a.ClaimHeartbeat? || a.ClaimNow? || a.ClaimSwap?)
  }

  /** About to wake the waiters of a notification it has counted. */
  predicate Waking(a: Agent) {
    a.ResetWake? || a.WriteWake?
  }

  // ---- Readers --------------------------------------------------------------------------

  datatype ReadResult = Success | Empty | Contended | WriterDead

  /** `ep` is the epoch in which the first sequence load of the attempt happened. */
  datatype ReadPc =
    | Resting
    | FirstLoad
    | LoadSequence(i: nat)
    | CheckHeartbeat(i: nat)
    | CheckNow(i: nat, seen: nat)
    | CopyWords(i: nat, s1: nat, ep: nat, got: seq<int>)
    | Done(result: ReadResult, s1: nat, ep: nat, got: seq<int>)

  /** `rich` selects the overload with death detection. `lastEp`, `lastSeq`: where the last
      successful read of this reader stood that no recovery crossed. */
  datatype Reader = Reader(pc: ReadPc, rich: bool, retries: nat, lastEp: nat, lastSeq: nat)

  /** One atomic step of a reader. */
  predicate ReadStep(x: Slot, clock: nat, threshold: nat, rd: Reader, rd': Reader) {
    match rd.pc
    case Resting =>
      || rd' == rd
      || rd' == rd.(pc := FirstLoad, rich := true, retries := rd'.retries)
      || rd' == rd.(pc := LoadSequence(0), rich := false, retries := rd'.retries)
    case FirstLoad =>
      rd' == rd.(pc := if x.sequence == 0 then Done(Empty, 0, x.epoch, []) else LoadSequence(0))
    case LoadSequence(i) =>
      rd' == rd.(pc := if i >= rd.retries then Done(Contended, 0, x.epoch, [])
                       else if x.sequence % 2 == 0 then CopyWords(i, x.sequence, x.epoch, [])
                       else if rd.rich && i % 64 == 63 then CheckHeartbeat(i)
                       else LoadSequence(i + 1))
    case CheckHeartbeat(i) => rd' == rd.(pc := CheckNow(i, x.heartbeat))
    case CheckNow(i, seen) =>
      rd' == rd.(pc := if seen != 0 && Diff64(clock, seen) > threshold
                       then Done(WriterDead, 0, x.epoch, []) else LoadSequence(i + 1))
    case CopyWords(i, s1, ep, got) =>
      if |got| < |x.mem| then
        rd' == rd.(pc := CopyWords(i, s1, ep, got + [x.mem[|got|]]))
      else if x.sequence == s1 then
        if ep == x.epoch then rd' == rd.(pc := Done(Success, s1, ep, got), lastEp := ep, lastSeq := s1)
        else rd' == rd.(pc := Done(Success, s1, ep, got))
      else
        rd' == rd.(pc := LoadSequence(i + 1))
    case Done(_, _, _, _) => rd' == rd.(pc := Resting)
  }

  // ---- Waiters --------------------------------------------------------------------------

  /** `count` is the full notification count whose low 32 bits were snapshot. */
  datatype Waiter =
    | Awake
    | Snapped(low: nat, count: nat)
    | Blocked(low: nat, count: nat)
    | Returned(count: nat, woken: bool)

  /** `notify_counter()`, then `wait_for_update`: the kernel compares and blocks atomically; a
      blocked waiter may also return because of a timeout or a signal. */
  predicate WaitStep(x: Slot, w: Waiter, w': Waiter) {
    match w
    case Awake => w' == Awake || w' == Snapped(x.notify % TWO32, x.notify)
    case Snapped(low, count) =>
      w' == if x.notify % TWO32 == low then Blocked(low, count) else Returned(count, true)
    case Blocked(low, count) => w' == Returned(count, true) || w' == Returned(count, false)
    case Returned(_, _) => w' == Awake
  }

  function WakeAll(ws: seq<Waiter>): (ws': seq<Waiter>)
    ensures |ws'| == |ws|
    ensures forall i :: 0 <= i < |ws| ==> ws'[i] == if ws[i].Blocked? then Returned(ws[i].count, true) else ws[i]
  {
    seq(|ws|, i requires 0 <= i < |ws| => if ws[i].Blocked? then Returned(ws[i].count, true) else ws[i])
  }

  // ---- The whole system ---------------------------------------------------------------------

  /** `lostAt`: the notification count at the last death of an agent between counting a notification
      and waking its waiters, or 0. It is history. */
  datatype System = System(
    x: Slot, clock: nat, agents: seq<Agent>, readers: seq<Reader>, waiters: seq<Waiter>, lostAt: nat)

  datatype Actor =
    | ByAgent(a: nat)
    | Crash(a: nat)
    | ByReader(r: nat)
    | ByWaiter(w: nat)
    | Tick

  predicate Init(s: System) {
    && s.x == Slot(s.x.n, 0, Zeros(s.x.n), 0, 0, 0, [Zeros(s.x.n)], [])
    && (forall i :: 0 <= i < |s.agents| ==> s.agents[i] == Off)
    && (forall i :: 0 <= i < |s.readers| ==> s.readers[i].pc == Resting && s.readers[i].lastEp == s.readers[i].lastSeq == 0)
    && (forall i :: 0 <= i < |s.waiters| ==> s.waiters[i] == Awake)
    && s.lostAt == 0
  }

  predicate AgentMove(s: System, threshold: nat, a: nat, s': System) {
    && a < |s.agents| == |s'.agents|
    && AgentStep(s.x, s.clock, threshold, s.agents[a], s'.x, s'.agents[a])
    && s' == s.(x := s'.x, agents := s.agents[a := s'.agents[a]],
                waiters := if Waking(s.agents[a]) then WakeAll(s.waiters) else s.waiters)
  }

  predicate CrashMove(s: System, a: nat, s': System) {
    && a < |s.agents|
    && s' == s.(agents := s.agents[a := Off], lostAt := if Waking(s.agents[a]) then s.x.notify else s.lostAt)
  }

  predicate Next(s: System, threshold: nat, actor: Actor, s': System) {
    match actor
    case ByAgent(a) => AgentMove(s, threshold, a, s')
    case Crash(a) => CrashMove(s, a, s')
    case ByReader(r) =>
      && r < |s.readers| == |s'.readers|
      && ReadStep(s.x, s.clock, threshold, s.readers[r], s'.readers[r])
      && s' == s.(readers := s.readers[r := s'.readers[r]])
    case ByWaiter(w) =>
      && w < |s.waiters| == |s'.waiters|
      && WaitStep(s.x, s.waiters[w], s'.waiters[w])
      && s' == s.(waiters := s.waiters[w := s'.waiters[w]])
    case Tick => s.clock <= s'.clock && s' == s.(clock := s'.clock)
  }

  /** The agent's next step makes it the owner. */
  predicate Takes(x: Slot, a: Agent) {
    a.ResumeStore? || (a.ClaimSwap? && x.heartbeat == a.seen)
  }

  /** The parity of the sequence is the one that the claimant loaded. */
  predicate SeesParity(x: Slot, a: Agent) {
    && (a.Resume? || a.ResumeStore? ==> x.sequence % 2 == 0)
    && (a.ClaimHeartbeat? || a.ClaimNow? || a.ClaimSwap? ==> x.sequence % 2 == 1)
  }

  /** The single-writer contract: nobody owns the slot when an agent takes it. */
  predicate Sole(s: System, actor: Actor) {
    actor.ByAgent? && actor.a < |s.agents| && Takes(s.x, s.agents[actor.a]) ==> NoOwner(s.agents)
  }

  /** A taker still finds the parity that it loaded; the code does not look again. */
  predicate ParityHolds(s: System, actor: Actor) {
    actor.ByAgent? && actor.a < |s.agents| && Takes(s.x, s.agents[actor.a]) ==> SeesParity(s.x, s.agents[actor.a])
  }

  /** Between its load of the sequence and its take. */
  predicate Claiming(a: Agent) {
    a.Resume? || a.ResumeStore? || a.ClaimHeartbeat? || a.ClaimNow? || a.ClaimSwap?
  }

  predicate NoOwner(agents: seq<Agent>) {
    forall i :: 0 <= i < |agents| ==> !Owns(agents[i])
  }

  predicate Run(ss: seq<System>, threshold: nat, actors: seq<Actor>) {
    && |ss| == |actors| + 1
    && Init(ss[0])
    && forall i :: 0 <= i < |actors| ==> Next(ss[i], threshold, actors[i], ss[i + 1])
  }

  predicate SoleRun(ss: seq<System>, actors: seq<Actor>, n: nat) {
    n <= |actors| < |ss| && forall i :: 0 <= i < n ==> Sole(ss[i], actors[i])
  }

  predicate ParityRun(ss: seq<System>, actors: seq<Actor>, n: nat) {
    n <= |actors| < |ss| && forall i :: 0 <= i < n ==> ParityHolds(ss[i], actors[i])
  }

  /** Agent `a` has been claiming from state `k` to state `i`. */
  predicate ClaimStretch(ss: seq<System>, k: nat, i: nat, a: nat) {
    k <= i < |ss| && forall l :: k <= l <= i ==> a < |ss[l].agents| && Claiming(ss[l].agents[a])
  }

  /** Nobody has owned the slot since agent `a` loaded the sequence. */
  predicate Quiet(ss: seq<System>, i: nat, a: nat) {
    i < |ss| && forall k :: 0 <= k <= i && ClaimStretch(ss, k, i, a) ==> NoOwner(ss[k].agents)
  }

  /** Step `i` makes its agent the owner. */
  predicate TakesAt(ss: seq<System>, actors: seq<Actor>, i: nat) {
    && i < |actors| && i < |ss| && actors[i].ByAgent? && actors[i].a < |ss[i].agents|
    && Takes(ss[i].x, ss[i].agents[actors[i].a])
  }

  /** Whoever takes the slot has had it to itself since its load of the sequence. */
  predicate UndisturbedRun(ss: seq<System>, actors: seq<Actor>) {
    |ss| == |actors| + 1 && forall i :: 0 <= i < |actors| && TakesAt(ss, actors, i) ==> Quiet(ss, i, actors[i].a)
  }

  // ---- Invariant -----------------------------------------------------------------------

  predicate SlotOK(x: Slot) {
    && |x.mem| == x.n
    && |x.vals| > 0 && x.vals[0] == Zeros(x.n)
    && (forall i :: 0 <= i < |x.vals| ==> |x.vals[i]| == x.n)
    && x.sequence / 2 == |x.vals| - 1
    && (x.sequence % 2 == 0 ==> x.mem == x.vals[|x.vals| - 1])
  }

  /** Where the owner stands. */
  predicate AgentOK(x: Slot, a: Agent) {
    match a
    case Off => true
    case ClaimSequence => true
    case Resume => true
    case ResumeStore(_) => true
    case ClaimHeartbeat => true
    case ClaimNow(_) => true
    case ClaimSwap(_, _) => true
    case Wipe(k) => x.sequence % 2 == 1 && k <= |x.mem| && forall i :: 0 <= i < k ==> x.mem[i] == 0
    case ResetNotify => x.sequence % 2 == 0
    case ResetWake => x.sequence % 2 == 0
    case Ready => x.sequence % 2 == 0
    case WriteLoad(v, _) => x.sequence % 2 == 0 && |v| == x.n
    case WriteOpen(v, s, _) => x.sequence == s && s % 2 == 0 && |v| == x.n
    case WriteCopy(v, s, k, _) =>
      && x.sequence == s + 1 && s % 2 == 0 && |v| == x.n
      && k <= |v| && k <= |x.mem| && x.mem[..k] == v[..k]
    case WriteBeat(done, _) => x.sequence == done && done % 2 == 0
    case WriteBeatStore(done, _, _) => x.sequence == done && done % 2 == 0
    case WriteNotify(done) => x.sequence == done && done % 2 == 0
    case WriteWake => x.sequence % 2 == 0
  }

  predicate AgentsInv(x: Slot, agents: seq<Agent>) {
    && (forall i :: 0 <= i < |agents| ==> AgentOK(x, agents[i]))
    && (forall i, j :: 0 <= i < |agents| && 0 <= j < |agents| && Owns(agents[i]) && Owns(agents[j]) ==> i == j)
  }

  /** What a reader has copied counts only while the sequence equals its first load and no recovery
      intervened; then it is a prefix of the value committed at that sequence number. */
  predicate ReaderOK(x: Slot, rd: Reader) {
    && rd.lastEp <= x.epoch
    && (rd.lastEp == x.epoch ==> rd.lastSeq <= x.sequence)
    && (rd.pc.CopyWords? ==>
          var pc := rd.pc;
          && pc.ep <= x.epoch && pc.s1 % 2 == 0
          && (pc.ep == x.epoch ==>
                && pc.s1 <= x.sequence && pc.s1 / 2 < |x.vals|
                && (rd.lastEp == pc.ep ==> rd.lastSeq <= pc.s1)
                && (pc.s1 == x.sequence ==> pc.got <= x.vals[pc.s1 / 2])))
  }

  /** A waiter that blocks while the count moves on is about to be woken, or the notifier of a count
      beyond its snapshot has died. */
  predicate WaiterOK(x: Slot, agents: seq<Agent>, lostAt: nat, w: Waiter) {
    match w
    case Awake => true
    case Snapped(low, count) => low == count % TWO32 && count <= x.notify
    case Blocked(low, count) =>
      && low == count % TWO32 && count <= x.notify
      && (count < x.notify ==> count < lostAt || exists i :: 0 <= i < |agents| && Waking(agents[i]))
    case Returned(count, _) => count <= x.notify
  }

  predicate MarksOK(x: Slot) {
    && |x.marks| == x.notify
    && forall m :: 0 <= m < |x.marks| ==>
         x.marks[m].0 <= x.epoch && (x.marks[m].0 == x.epoch ==> x.marks[m].1 <= x.sequence)
  }

  /** Kept by every step of an undisturbed run. */
  predicate Inv(s: System) {
    && SlotOK(s.x)
    && MarksOK(s.x)
    && AgentsInv(s.x, s.agents)
    && forall r :: 0 <= r < |s.readers| ==> ReaderOK(s.x, s.readers[r])
  }

  /** Kept by every step of a timely run. */
  predicate WaitInv(s: System) {
    forall w :: 0 <= w < |s.waiters| ==> WaiterOK(s.x, s.agents, s.lostAt, s.waiters[w])
  }

  /** At most 2^32 - 1 notifications fall between a snapshot and the wait that uses it. */
  predicate Timely(s: System, actor: Actor) {
    actor.ByWaiter? && actor.w < |s.waiters| && s.waiters[actor.w].Snapped? ==>
      s.x.notify - s.waiters[actor.w].count < TWO32
  }

  predicate TimelyRun(ss: seq<System>, actors: seq<Actor>) {
    |ss| == |actors| + 1 && forall i :: 0 <= i < |actors| ==> Timely(ss[i], actors[i])
  }
}
