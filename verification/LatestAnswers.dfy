/** What the answers of a concurrent `try_read` and `wait_for_update` mean. */
module LatestAnswers {
  import opened Arithmetic
  import opened LatestSlot
  import opened LatestProofs

  // ---- Reads --------------------------------------------------------------------------------------

  predicate InCall(pc: ReadPc) {
    !pc.Resting? && !pc.Done?
  }

  predicate Present(ss: seq<System>, m: nat, n: nat, r: nat) {
    m <= n < |ss| && forall k :: m <= k <= n ==> r < |ss[k].readers|
  }

  /** Reader `r` has begun a call in state `m` and is still in it in state `n`. */
  predicate Reading(ss: seq<System>, threshold: nat, actors: seq<Actor>, r: nat, m: nat, n: nat) {
    && |ss| == |actors| + 1 && Present(ss, m, n, r)
    && ss[m].readers[r].pc == (if ss[m].readers[r].rich then FirstLoad else LoadSequence(0))
    && (forall k :: m <= k <= n ==> InCall(ss[k].readers[r].pc))
    && (forall k :: m <= k < n ==> Next(ss[k], threshold, actors[k], ss[k + 1]))
  }

  /** The writer whose heartbeat is `seen` counts as dead at this clock value. */
  predicate Dead(clock: nat, seen: nat, threshold: nat) {
    seen != 0 && Diff64(clock, seen) > threshold
  }

  /** Step `k` ends attempt `i` of the call in failure: the sequence is odd and no heartbeat check is
      due; or one was due and finds no dead writer; or the sequence has changed during the copy. */
  predicate FailsAt(ss: seq<System>, threshold: nat, actors: seq<Actor>, r: nat, k: nat, i: nat) {
    && k < |actors| && k < |ss| && actors[k] == ByReader(r) && r < |ss[k].readers|
    && var s, rd := ss[k], ss[k].readers[r];
       match rd.pc
       case LoadSequence(j) => j == i && s.x.sequence % 2 == 1 && !(rd.rich && i % 64 == 63)
       case CheckNow(j, seen) => j == i && !Dead(s.clock, seen, threshold)
       case CopyWords(j, s1, _, got) => j == i && |got| >= |s.x.mem| && s.x.sequence != s1
       case _ => false
  }

  ghost predicate HasFailed(ss: seq<System>, threshold: nat, actors: seq<Actor>, r: nat, m: nat, n: nat, i: nat) {
    exists k: nat :: m <= k < n && FailsAt(ss, threshold, actors, r, k, i)
  }

  /** The attempt that the reader is in. */
  function Attempt(pc: ReadPc): nat
    requires InCall(pc)
  {
    if pc.FirstLoad? then 0 else pc.i
  }

  /** A step of anybody is a step of this reader or leaves it alone. */
  lemma ReaderStep(s: System, threshold: nat, actor: Actor, s': System, r: nat)
    requires Next(s, threshold, actor, s') && r < |s.readers|
    ensures |s'.readers| == |s.readers|
    ensures s'.readers[r] == s.readers[r] || (actor == ByReader(r) && ReadStep(s.x, s.clock, threshold, s.readers[r], s'.readers[r]))
  {
    hide AgentStep, ReadStep, WaitStep;
  }

  /** One step of anybody during a call: the reader's attempt stays, or its failure moves it on by one. */
  lemma AttemptStep(s: System, threshold: nat, actor: Actor, s': System, r: nat)
    requires Next(s, threshold, actor, s') && r < |s.readers| && r < |s'.readers|
    requires InCall(s.readers[r].pc) && InCall(s'.readers[r].pc)
    ensures s'.readers[r].rich == s.readers[r].rich && s'.readers[r].retries == s.readers[r].retries
    ensures Attempt(s'.readers[r].pc) == Attempt(s.readers[r].pc)
            || (Attempt(s'.readers[r].pc) == Attempt(s.readers[r].pc) + 1
                && FailsAt([s, s'], threshold, [actor], r, 0, Attempt(s.readers[r].pc)))
  {
    ReaderStep(s, threshold, actor, s', r);
    hide Next;
  }

  /** Every attempt before the current one has failed. */
  lemma {:induction false} EarlierFailed(ss: seq<System>, threshold: nat, actors: seq<Actor>, r: nat, m: nat, n: nat, i: nat)
    requires Reading(ss, threshold, actors, r, m, n) && i < Attempt(ss[n].readers[r].pc)
    ensures HasFailed(ss, threshold, actors, r, m, n, i)
    ensures ss[n].readers[r].rich == ss[m].readers[r].rich && ss[n].readers[r].retries == ss[m].readers[r].retries
    decreases n
  {
    hide Next;
    assert m < n;
    var l := n - 1;
    assert Next(ss[l], threshold, actors[l], ss[l + 1]);
    AttemptStep(ss[l], threshold, actors[l], ss[n], r);
    assert Reading(ss, threshold, actors, r, m, l);
    if i < Attempt(ss[l].readers[r].pc) {
      EarlierFailed(ss, threshold, actors, r, m, l, i);
      var k: nat :| m <= k < l && FailsAt(ss, threshold, actors, r, k, i);
      assert m <= k < n;
    } else {
      SameCall(ss, threshold, actors, r, m, l);
      assert FailsAt(ss, threshold, actors, r, l, i);
    }
  }

  lemma {:induction false} SameCall(ss: seq<System>, threshold: nat, actors: seq<Actor>, r: nat, m: nat, n: nat)
    requires Reading(ss, threshold, actors, r, m, n)
    ensures ss[n].readers[r].rich == ss[m].readers[r].rich && ss[n].readers[r].retries == ss[m].readers[r].retries
    decreases n
  {
    hide Next;
    if m < n {
      assert Next(ss[n - 1], threshold, actors[n - 1], ss[n - 1 + 1]);
      AttemptStep(ss[n - 1], threshold, actors[n - 1], ss[n], r);
      SameCall(ss, threshold, actors, r, m, n - 1);
    }
  }

  /** Before a heartbeat check the reader has found the sequence odd, on the last of 64 attempts, and
      then loaded the heartbeat. */
  predicate SawOdd(ss: seq<System>, r: nat, k: nat, i: nat) {
    && k < |ss| && r < |ss[k].readers| && ss[k].readers[r].pc == LoadSequence(i) && ss[k].readers[r].rich
    && ss[k].x.sequence % 2 == 1 && i % 64 == 63
  }

  predicate SawBeat(ss: seq<System>, r: nat, l: nat, i: nat, seen: nat) {
    l < |ss| && r < |ss[l].readers| && ss[l].readers[r].pc == CheckHeartbeat(i) && ss[l].x.heartbeat == seen
  }

  lemma {:induction false} OddBefore(ss: seq<System>, threshold: nat, actors: seq<Actor>, r: nat, m: nat, n: nat) returns (k: nat)
    requires Reading(ss, threshold, actors, r, m, n) && ss[n].readers[r].pc.CheckHeartbeat?
    ensures m <= k < n && SawOdd(ss, r, k, ss[n].readers[r].pc.i)
    decreases n
  {
    hide Next;
    assert m < n;
    var l := n - 1;
    assert Next(ss[l], threshold, actors[l], ss[l + 1]);
    ReaderStep(ss[l], threshold, actors[l], ss[n], r);
    if ss[l].readers[r].pc == ss[n].readers[r].pc {
      k := OddBefore(ss, threshold, actors, r, m, l);
    } else {
      k := l;
    }
  }

  lemma {:induction false} BeatBefore(ss: seq<System>, threshold: nat, actors: seq<Actor>, r: nat, m: nat, n: nat) returns (k: nat, l: nat)
    requires Reading(ss, threshold, actors, r, m, n) && ss[n].readers[r].pc.CheckNow?
    ensures m <= k < l < n && SawOdd(ss, r, k, ss[n].readers[r].pc.i)
    ensures SawBeat(ss, r, l, ss[n].readers[r].pc.i, ss[n].readers[r].pc.seen)
    decreases n
  {
    hide Next;
    assert m < n;
    var p := n - 1;
    assert Next(ss[p], threshold, actors[p], ss[p + 1]);
    ReaderStep(ss[p], threshold, actors[p], ss[n], r);
    if ss[p].readers[r].pc == ss[n].readers[r].pc {
      k, l := BeatBefore(ss, threshold, actors, r, m, p);
    } else {
      l := p;
      k := OddBefore(ss, threshold, actors, r, m, p);
    }
  }

  /** Step `n` ends the call of reader `r` that began in state `m`. */
  predicate AnswersAt(ss: seq<System>, threshold: nat, actors: seq<Actor>, r: nat, m: nat, n: nat) {
    && Reading(ss, threshold, actors, r, m, n) && n < |actors|
    && Next(ss[n], threshold, actors[n], ss[n + 1]) && r < |ss[n + 1].readers| && ss[n + 1].readers[r].pc.Done?
  }

  /** What the end of a call means, in any stretch of any run: `Empty` is the first load of the rich
      overload finding 0; `Contended` is every one of the allowed attempts having failed, and no more
      allowed; `WriterDead` is an odd sequence, then a heartbeat that the clock now finds too old, on the
      last of 64 attempts of the rich overload; `Success` is a whole copy between two equal loads, on an
      allowed attempt. There is no other end, and each of these ends the call. */
  lemma AnswerMeans(ss: seq<System>, threshold: nat, actors: seq<Actor>, r: nat, m: nat, n: nat)
    requires AnswersAt(ss, threshold, actors, r, m, n)
    ensures var s, rd, result := ss[n], ss[n].readers[r], ss[n + 1].readers[r].pc.result;
      && rd.rich == ss[m].readers[r].rich && rd.retries == ss[m].readers[r].retries
      && (result == Empty ==> rd.rich && s.x.sequence == 0 && rd.pc == FirstLoad)
      && (result == Contended ==> rd.pc.LoadSequence? && rd.pc.i >= rd.retries
                                  && forall i: nat :: i < rd.retries ==> HasFailed(ss, threshold, actors, r, m, n, i))
      && (result == WriterDead ==> rd.pc.CheckNow? && rd.rich && Dead(s.clock, rd.pc.seen, threshold)
                                   && exists k: nat, l: nat :: m <= k < l < n && SawOdd(ss, r, k, rd.pc.i) && SawBeat(ss, r, l, rd.pc.i, rd.pc.seen))
      && (result == Success ==> rd.pc.CopyWords? && rd.pc.i < rd.retries
                                && |rd.pc.got| >= |s.x.mem| && rd.pc.s1 == s.x.sequence)
  {
    SameCall(ss, threshold, actors, r, m, n);
    ReaderStep(ss[n], threshold, actors[n], ss[n + 1], r);
    hide Next;
    var rd, result := ss[n].readers[r], ss[n + 1].readers[r].pc.result;
    if result == Contended {
      forall i: nat | i < rd.retries ensures HasFailed(ss, threshold, actors, r, m, n, i) {
        EarlierFailed(ss, threshold, actors, r, m, n, i);
      }
    } else if result == WriterDead {
      var k, l := BeatBefore(ss, threshold, actors, r, m, n);
      assert Reading(ss, threshold, actors, r, m, k);
      SameCall(ss, threshold, actors, r, m, k);
    } else if result == Success {
      Allowed(ss, threshold, actors, r, m, n);
    } else if result == Empty {
      FirstIsRich(ss, threshold, actors, r, m, n);
    }
  }

  /** A copy belongs to an allowed attempt. */
  lemma {:induction false} Allowed(ss: seq<System>, threshold: nat, actors: seq<Actor>, r: nat, m: nat, n: nat)
    requires Reading(ss, threshold, actors, r, m, n) && ss[n].readers[r].pc.CopyWords?
    ensures ss[n].readers[r].pc.i < ss[n].readers[r].retries
    decreases n
  {
    hide Next;
    assert m < n;
    assert Next(ss[n - 1], threshold, actors[n - 1], ss[n - 1 + 1]);
    ReaderStep(ss[n - 1], threshold, actors[n - 1], ss[n], r);
    if ss[n - 1].readers[r].pc.CopyWords? {
      Allowed(ss, threshold, actors, r, m, n - 1);
    }
  }

  lemma {:induction false} FirstIsRich(ss: seq<System>, threshold: nat, actors: seq<Actor>, r: nat, m: nat, n: nat)
    requires Reading(ss, threshold, actors, r, m, n) && ss[n].readers[r].pc.FirstLoad?
    ensures ss[n].readers[r].rich
    decreases n
  {
    hide Next;
    if m < n {
      assert Next(ss[n - 1], threshold, actors[n - 1], ss[n - 1 + 1]);
      ReaderStep(ss[n - 1], threshold, actors[n - 1], ss[n], r);
      FirstIsRich(ss, threshold, actors, r, m, n - 1);
    }
  }

  /** When the reader's own step ends the call; and that a step which does not end it goes on to the
      next attempt exactly if it is the failure of this one. */
  lemma AnswersWhen(s: System, threshold: nat, r: nat, s': System)
    requires Next(s, threshold, ByReader(r), s') && InCall(s.readers[r].pc)
    ensures var x, rd, pc := s.x, s.readers[r], s.readers[r].pc;
      s'.readers[r].pc.Done? <==>
        || (pc.FirstLoad? && x.sequence == 0)
        || (pc.LoadSequence? && pc.i >= rd.retries)
        || (pc.CheckNow? && Dead(s.clock, pc.seen, threshold))
        || (pc.CopyWords? && |pc.got| >= |x.mem| && pc.s1 == x.sequence)
    ensures var pc, pc' := s.readers[r].pc, s'.readers[r].pc;
      InCall(pc') ==>
        Attempt(pc') == Attempt(pc) + if FailsAt([s, s'], threshold, [ByReader(r)], r, 0, Attempt(pc)) then 1 else 0
  {}

  // ---- Waits --------------------------------------------------------------------------------------

  /** Step `i` is the snapshot of the counter by waiter `w`. */
  predicate SnapsAt(ss: seq<System>, i: nat, w: nat, count: nat) {
    && i + 1 < |ss| && w < |ss[i].waiters| && w < |ss[i + 1].waiters|
    && ss[i].waiters[w] == Awake && ss[i + 1].waiters[w].Snapped? && ss[i].x.notify == count
  }

  /** A snapshot is kept until it is used, and is the counter when it is taken. */
  lemma WaiterStep(s: System, threshold: nat, actor: Actor, s': System, w: nat)
    requires Next(s, threshold, actor, s') && w < |s'.waiters| && s'.waiters[w].Snapped?
    ensures w < |s.waiters| && s.x.notify <= s'.x.notify
    ensures s.waiters[w] == s'.waiters[w] || (s.waiters[w] == Awake && s'.waiters[w] == Snapped(s.x.notify % TWO32, s.x.notify))
  {}

  lemma NobodyWaits(s: System, w: nat)
    requires Init(s) && w < |s.waiters|
    ensures s.waiters[w] == Awake
  {}

  lemma {:induction false} SnapshotTaken(ss: seq<System>, threshold: nat, actors: seq<Actor>, n: nat, w: nat) returns (i: nat)
    requires Run(ss, threshold, actors) && n < |ss| && w < |ss[n].waiters| && ss[n].waiters[w].Snapped?
    ensures i < n && SnapsAt(ss, i, w, ss[n].waiters[w].count) && ss[n].waiters[w].low == ss[n].waiters[w].count % TWO32
    ensures ss[n].waiters[w].count <= ss[n].x.notify
  {
    hide Next, Init;
    if n == 0 {
      NobodyWaits(ss[0], w);
      assert false;
    }
    assert Next(ss[n - 1], threshold, actors[n - 1], ss[n - 1 + 1]);
    WaiterStep(ss[n - 1], threshold, actors[n - 1], ss[n], w);
    if ss[n - 1].waiters[w] == ss[n].waiters[w] {
      i := SnapshotTaken(ss, threshold, actors, n - 1, w);
    } else {
      i := n - 1;
    }
  }

  /** `wait_for_update` blocks if and only if the counter has not moved since the snapshot that it was
      given - or has moved by a multiple of 2^32 - and otherwise answers true at once. */
  lemma WaitMeans(ss: seq<System>, threshold: nat, actors: seq<Actor>, n: nat, w: nat) returns (i: nat)
    requires Run(ss, threshold, actors) && n < |actors| && actors[n] == ByWaiter(w)
    requires w < |ss[n].waiters| && ss[n].waiters[w].Snapped? && w < |ss[n + 1].waiters|
    ensures i < n && SnapsAt(ss, i, w, ss[i].x.notify) && ss[i].x.notify <= ss[n].x.notify
    ensures var moved, w' := ss[n].x.notify - ss[i].x.notify, ss[n + 1].waiters[w];
      && (w'.Blocked? <==> moved % TWO32 == 0)
      && (!w'.Blocked? ==> w'.Returned? && w'.woken)
  {
    i := SnapshotTaken(ss, threshold, actors, n, w);
    assert Next(ss[n], threshold, actors[n], ss[n + 1]);
    BlocksIffCurrent(ss[n].x, ss[n].waiters[w].low, ss[n].waiters[w].count, ss[n + 1].waiters[w]);
  }

  // ---- Claims -------------------------------------------------------------------------------------

  /** Step `l` is the heartbeat load of a claimant. */
  predicate LoadsBeat(ss: seq<System>, l: nat, a: nat, seen: nat) {
    && l + 1 < |ss| && a < |ss[l].agents| && a < |ss[l + 1].agents|
    && ss[l].agents[a] == ClaimHeartbeat && ss[l + 1].agents[a] == ClaimNow(seen) && ss[l].x.heartbeat == seen
  }

  /** The claimant has not left its call between `l` and `n`. */
  predicate KeepsClaiming(ss: seq<System>, l: nat, n: nat, a: nat) {
    n < |ss| && forall k :: l < k <= n ==> a < |ss[k].agents| && (ss[k].agents[a].ClaimNow? || ss[k].agents[a].ClaimSwap?)
  }

  /** Step `k` is the clock reading of a claimant. */
  predicate ReadsNow(ss: seq<System>, k: nat, a: nat, now: nat) {
    k < |ss| && a < |ss[k].agents| && ss[k].agents[a].ClaimNow? && ss[k].clock == now
  }

  /** A loaded heartbeat and a clock reading are kept until the call ends. */
  lemma ClaimantStep(s: System, threshold: nat, actor: Actor, s': System, a: nat)
    requires Next(s, threshold, actor, s') && a < |s'.agents| && (s'.agents[a].ClaimNow? || s'.agents[a].ClaimSwap?)
    ensures a < |s.agents|
    ensures (s.agents[a] == ClaimHeartbeat && s'.agents[a] == ClaimNow(s.x.heartbeat))
            || (s.agents[a].ClaimNow? && s'.agents[a] == ClaimSwap(s.agents[a].seen, s.clock))
            || s'.agents[a] == s.agents[a]
  {}

  lemma NobodyClaims(s: System, a: nat)
    requires Init(s) && a < |s.agents|
    ensures s.agents[a] == Off
  {}

  lemma {:induction false} BeatLoaded(ss: seq<System>, threshold: nat, actors: seq<Actor>, n: nat, a: nat) returns (l: nat, k: nat)
    requires Run(ss, threshold, actors) && n < |ss| && a < |ss[n].agents|
    requires ss[n].agents[a].ClaimNow? || ss[n].agents[a].ClaimSwap?
    ensures l < n && LoadsBeat(ss, l, a, ss[n].agents[a].seen) && KeepsClaiming(ss, l, n, a)
    ensures ss[n].agents[a].ClaimSwap? ==> l < k < n && ReadsNow(ss, k, a, ss[n].agents[a].now)
  {
    hide Next, Init;
    if n == 0 {
      NobodyClaims(ss[0], a);
      assert false;
    }
    assert Next(ss[n - 1], threshold, actors[n - 1], ss[n - 1 + 1]);
    ClaimantStep(ss[n - 1], threshold, actors[n - 1], ss[n], a);
    if ss[n - 1].agents[a].ClaimHeartbeat? {
      l, k := n - 1, n;
    } else {
      l, k := BeatLoaded(ss, threshold, actors, n - 1, a);
      if ss[n - 1].agents[a] != ss[n].agents[a] { k := n - 1; }
    }
  }

  /** How a claimant that saw an odd sequence ends its call, in every run: it throws if and only if the
      heartbeat it loaded is fresh at its clock reading, or has been changed by somebody by the time of
      its exchange; otherwise it goes on, at the exchange as the owner, leaving the clock value that it
      read in between as the heartbeat. A call that throws has changed nothing. */
  lemma ClaimThrows(ss: seq<System>, threshold: nat, actors: seq<Actor>, n: nat, a: nat) returns (l: nat, k: nat)
    requires Run(ss, threshold, actors) && n < |actors| && actors[n] == ByAgent(a) && a < |ss[n].agents|
    requires (ss[n].agents[a].ClaimNow? || ss[n].agents[a].ClaimSwap?) && a < |ss[n + 1].agents|
    ensures l < n && LoadsBeat(ss, l, a, ss[n].agents[a].seen) && KeepsClaiming(ss, l, n, a)
    ensures var s, seen, a' := ss[n], ss[l].x.heartbeat, ss[n + 1].agents[a];
      if s.agents[a].ClaimNow? then
        && ss[n + 1].x == s.x
        && a' == (if seen != 0 && Diff64(s.clock, seen) < threshold then Off else ClaimSwap(seen, s.clock))
      else
        && (a' == Off <==> s.x.heartbeat != seen) && (Owns(a') <==> s.x.heartbeat == seen)
        && (a' == Off ==> ss[n + 1].x == s.x)
        && (a' != Off ==> l < k < n && ReadsNow(ss, k, a, ss[n + 1].x.heartbeat) && ss[n + 1].x == s.x.(heartbeat := ss[k].clock))
  {
    l, k := BeatLoaded(ss, threshold, actors, n, a);
    assert Next(ss[n], threshold, actors[n], ss[n + 1]);
  }
}
