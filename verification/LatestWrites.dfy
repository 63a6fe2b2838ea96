/** What a completed `write` or `write_and_notify` has done, whatever happens in between. */
module LatestWrites {
  import opened LatestSlot
  import opened LatestRecovery
  import opened LatestTheorems

  predicate InWrite(a: Agent) {
    a.WriteLoad? || a.WriteOpen? || a.WriteCopy? || a.WriteBeat? || a.WriteBeatStore? || a.WriteNotify? || a.WriteWake?
  }

  /** Nobody but agent `a` owns the slot. */
  predicate OnlyOwner(agents: seq<Agent>, a: nat) {
    a < |agents| && forall b :: 0 <= b < |agents| && b != a ==> !Owns(agents[b])
  }

  /** Any stretch of a run with one owner at a time: other agents claim and die, readers read, waiters
      wait, the clock goes on. */
  predicate Stretch(ss: seq<System>, threshold: nat, actors: seq<Actor>) {
    && |ss| == |actors| + 1
    && forall i :: 0 <= i < |actors| ==> Next(ss[i], threshold, actors[i], ss[i + 1]) && Sole(ss[i], actors[i])
  }

  predicate Busy(ss: seq<System>, n: nat, a: nat) {
    n <= |ss| && forall i :: 0 <= i < n ==> a < |ss[i].agents| && InWrite(ss[i].agents[a])
  }

  /** Over the stretch, agent `a` carries out one whole call of `write(v)`, or of `write_and_notify(v)`
      if `nt`, and does not die. */
  predicate WriteCall(ss: seq<System>, threshold: nat, actors: seq<Actor>, a: nat, v: seq<int>, nt: bool) {
    && Stretch(ss, threshold, actors) && actors != []
    && a < |ss[0].agents| && ss[0].agents[a] == WriteLoad(v, nt) && Busy(ss, |actors|, a)
    && a < |ss[|actors|].agents| && ss[|actors|].agents[a] == Ready
  }

  // ---- Where the call stands -----------------------------------------------------------------------

  function Committed(x: Slot, v: seq<int>, heartbeat: nat): Slot {
    x.(sequence := x.sequence + 2, mem := v, vals := x.vals + [v], heartbeat := heartbeat)
  }

  function Announced(x: Slot, v: seq<int>, heartbeat: nat): Slot {
    Committed(x, v, heartbeat).(notify := x.notify + 1, marks := x.marks + [(x.epoch, x.sequence + 2)])
  }

  /** The slot is `x0` plus what the call has done so far. */
  predicate WriteStage(x0: Slot, v: seq<int>, nt: bool, x: Slot, a: Agent) {
    match a
    case WriteLoad(w, b) => x == x0 && w == v && b == nt
    case WriteOpen(w, s, b) => x == x0 && w == v && s == x0.sequence && b == nt
    case WriteCopy(w, s, k, b) =>
      && x == x0.(sequence := x0.sequence + 1, mem := x.mem) && w == v && s == x0.sequence && b == nt
      && k <= |v| == |x.mem| && x.mem[..k] == v[..k]
    case WriteBeat(done, b) => x == Committed(x0, v, x0.heartbeat) && done == x0.sequence + 2 && b == nt
    case WriteBeatStore(done, _, b) => x == Committed(x0, v, x0.heartbeat) && done == x0.sequence + 2 && b == nt
    case WriteNotify(done) => x == Committed(x0, v, x.heartbeat) && done == x0.sequence + 2 && nt
    case WriteWake => x == Announced(x0, v, x.heartbeat) && nt
    case Ready => x == if nt then Announced(x0, v, x.heartbeat) else Committed(x0, v, x.heartbeat)
    case _ => false
  }

  lemma OwnStep(x0: Slot, v: seq<int>, nt: bool, x: Slot, clock: nat, threshold: nat, a: Agent, x': Slot, a': Agent)
    requires |x0.mem| == |v| && WriteStage(x0, v, nt, x, a) && InWrite(a) && AgentStep(x, clock, threshold, a, x', a')
    ensures WriteStage(x0, v, nt, x', a')
  {
    if a.WriteCopy? {
      if a.k < |v| {
        assert x'.mem[..a.k + 1] == v[..a.k + 1];
      } else {
        assert x.mem == v;
      }
    }
  }

  /** While `a` owns the slot alone, nobody else touches it or comes to own it. */
  lemma OthersStay(s: System, threshold: nat, actor: Actor, s': System, a: nat)
    requires Next(s, threshold, actor, s') && Sole(s, actor) && OnlyOwner(s.agents, a) && Owns(s.agents[a])
    ensures |s'.agents| == |s.agents|
    ensures actor != ByAgent(a) ==> s'.x == s.x
    ensures actor != ByAgent(a) && actor != Crash(a) ==> s'.agents[a] == s.agents[a]
    ensures OnlyOwner(s'.agents, a)
  {
    if actor.ByAgent? && actor.a != a {
      assert !NoOwner(s.agents);
      hide NoOwner;
    }
  }

  lemma {:induction false} WriteStages(ss: seq<System>, threshold: nat, actors: seq<Actor>, a: nat, v: seq<int>, nt: bool, n: nat)
    requires WriteCall(ss, threshold, actors, a, v, nt) && OnlyOwner(ss[0].agents, a) && |ss[0].x.mem| == |v| && n < |ss|
    ensures OnlyOwner(ss[n].agents, a) && WriteStage(ss[0].x, v, nt, ss[n].x, ss[n].agents[a])
  {
    if n > 0 {
      WriteStages(ss, threshold, actors, a, v, nt, n - 1);
      assert Next(ss[n - 1], threshold, actors[n - 1], ss[n - 1 + 1]) && Sole(ss[n - 1], actors[n - 1]);
      StageStep(ss[0].x, v, nt, ss[n - 1], threshold, actors[n - 1], ss[n], a);
    }
  }

  lemma StageStep(x0: Slot, v: seq<int>, nt: bool, s: System, threshold: nat, actor: Actor, s': System, a: nat)
    requires Next(s, threshold, actor, s') && Sole(s, actor) && OnlyOwner(s.agents, a) && InWrite(s.agents[a])
    requires a < |s'.agents| && (InWrite(s'.agents[a]) || s'.agents[a] == Ready)
    requires |x0.mem| == |v| && WriteStage(x0, v, nt, s.x, s.agents[a])
    ensures OnlyOwner(s'.agents, a) && WriteStage(x0, v, nt, s'.x, s'.agents[a])
  {
    OthersStay(s, threshold, actor, s', a);
    if actor == ByAgent(a) {
      OwnStep(x0, v, nt, s.x, s.clock, threshold, s.agents[a], s'.x, s'.agents[a]);
    }
  }

  // ---- The heartbeat -----------------------------------------------------------------------------------

  /** At step `h` agent `a` reads the clock for the heartbeat. */
  predicate ReadsClock(ss: seq<System>, h: nat, a: nat, now: nat) {
    h < |ss| && a < |ss[h].agents| && ss[h].agents[a].WriteBeat? && ss[h].clock == now
  }

  predicate Beaten(a: Agent) {
    a.WriteNotify? || a.WriteWake? || a.Ready?
  }

  lemma {:induction false} BeatRead(ss: seq<System>, threshold: nat, actors: seq<Actor>, a: nat, v: seq<int>, nt: bool, n: nat) returns (h: nat)
    requires WriteCall(ss, threshold, actors, a, v, nt) && OnlyOwner(ss[0].agents, a) && |ss[0].x.mem| == |v| && n < |ss|
    requires a < |ss[n].agents| && (ss[n].agents[a].WriteBeatStore? || Beaten(ss[n].agents[a]))
    ensures h < n && ReadsClock(ss, h, a, if Beaten(ss[n].agents[a]) then ss[n].x.heartbeat else ss[n].agents[a].now)
  {
    var m := n - 1;
    WriteStages(ss, threshold, actors, a, v, nt, m);
    assert Next(ss[m], threshold, actors[m], ss[m + 1]) && Sole(ss[m], actors[m]);
    OthersStay(ss[m], threshold, actors[m], ss[m + 1], a);
    if ss[m].agents[a].WriteBeat? {
      h := m;
    } else {
      h := BeatRead(ss, threshold, actors, a, v, nt, m);
    }
  }

  /** A completed write, in any stretch with one owner at a time: the sequence has grown by 2 and the
      value is committed; the heartbeat is the clock value the call read after the commit; the
      notification counter has grown by one if the call notifies, marked with this write, and not
      otherwise; and if it notifies, no waiter is blocked when it returns. */
  lemma WriteMeans(ss: seq<System>, threshold: nat, actors: seq<Actor>, a: nat, v: seq<int>, nt: bool) returns (h: nat)
    requires WriteCall(ss, threshold, actors, a, v, nt) && OnlyOwner(ss[0].agents, a) && |ss[0].x.mem| == |v|
    ensures var x, x' := ss[0].x, ss[|actors|].x;
      && x'.sequence == x.sequence + 2 && x'.mem == v && x'.vals == x.vals + [v] && x'.epoch == x.epoch
      && x'.notify == x.notify + (if nt then 1 else 0)
      && x'.marks == x.marks + (if nt then [(x.epoch, x.sequence + 2)] else [])
      && (nt ==> NoneBlocked(ss[|actors|].waiters))
      && h < |actors| && ReadsClock(ss, h, a, x'.heartbeat) && ss[h].x.sequence == x.sequence + 2
  {
    var n := |actors|;
    WriteStages(ss, threshold, actors, a, v, nt, n);
    h := BeatRead(ss, threshold, actors, a, v, nt, n);
    WriteStages(ss, threshold, actors, a, v, nt, h);
    LastStep(ss, threshold, actors, a, v, nt);
    assert ss[0].x.marks + [] == ss[0].x.marks;
  }

  lemma LastStep(ss: seq<System>, threshold: nat, actors: seq<Actor>, a: nat, v: seq<int>, nt: bool)
    requires WriteCall(ss, threshold, actors, a, v, nt) && OnlyOwner(ss[0].agents, a) && |ss[0].x.mem| == |v|
    ensures nt ==> NoneBlocked(ss[|actors|].waiters)
  {
    var m := |actors| - 1;
    WriteStages(ss, threshold, actors, a, v, nt, m);
    assert Next(ss[m], threshold, actors[m], ss[m + 1]) && Sole(ss[m], actors[m]);
    OthersStay(ss[m], threshold, actors[m], ss[m + 1], a);
  }

  // ---- A write that runs alone ends ----------------------------------------------------------------------

  lemma {:induction false} CopyRuns(s: System, threshold: nat, c: nat) returns (t: System)
    requires c < |s.agents| && s.agents[c].WriteCopy? && s.agents[c].k <= |s.agents[c].v| <= |s.x.mem|
    ensures Solo(s, threshold, c, t) && |t.agents| == |s.agents| && t.agents[c] == Ready
    decreases |s.agents[c].v| - s.agents[c].k
  {
    hide Solo;
    var a := s.agents[c];
    if a.k < |a.v| {
      var x := s.x.(mem := s.x.mem[a.k := a.v[a.k]]);
      t := CopyRuns(At(s, c, a.(k := a.k + 1), x), threshold, c);
      StepTo(s, threshold, c, a.(k := a.k + 1), x, t);
    } else {
      var x := s.x.(sequence := a.s + 2, vals := s.x.vals + [a.v]);
      t := BeatRuns(At(s, c, WriteBeat(a.s + 2, a.notifies), x), threshold, c);
      StepTo(s, threshold, c, WriteBeat(a.s + 2, a.notifies), x, t);
    }
  }

  lemma BeatRuns(s: System, threshold: nat, c: nat) returns (t: System)
    requires c < |s.agents| && s.agents[c].WriteBeat?
    ensures Solo(s, threshold, c, t) && |t.agents| == |s.agents| && t.agents[c] == Ready
  {
    hide Solo;
    var done, nt := s.agents[c].done, s.agents[c].notifies;
    var x := s.x.(heartbeat := s.clock);
    var m := At(s, c, WriteBeatStore(done, s.clock, nt), s.x);
    if nt {
      var u := At(m, c, WriteNotify(done), x);
      t := WakeRuns(u, threshold, c);
      StepTo(m, threshold, c, WriteNotify(done), x, t);
    } else {
      t := At(m, c, Ready, x);
      SoloDone(t, threshold, c);
      StepTo(m, threshold, c, Ready, x, t);
    }
    StepTo(s, threshold, c, WriteBeatStore(done, s.clock, nt), s.x, t);
  }

  lemma WakeRuns(s: System, threshold: nat, c: nat) returns (t: System)
    requires c < |s.agents| && s.agents[c].WriteNotify?
    ensures Solo(s, threshold, c, t) && |t.agents| == |s.agents| && t.agents[c] == Ready
  {
    hide Solo;
    var x := s.x.(notify := s.x.notify + 1, marks := s.x.marks + [(s.x.epoch, s.x.sequence)]);
    var m := At(s, c, WriteWake, x);
    t := At(m, c, Ready, x).(waiters := WakeAll(s.waiters));
    SoloDone(t, threshold, c);
    SoloCons(m, threshold, c, t, t);
    SoloCons(s, threshold, c, m, t);
  }

  /** A write that runs alone ends, from every state. */
  lemma WriteEnds(s: System, threshold: nat, c: nat) returns (t: System)
    requires c < |s.agents| && s.agents[c].WriteLoad? && |s.agents[c].v| == |s.x.mem|
    ensures Solo(s, threshold, c, t) && |t.agents| == |s.agents| && t.agents[c] == Ready
  {
    hide Solo;
    var v, nt, q := s.agents[c].v, s.agents[c].notifies, s.x.sequence;
    var m := At(s, c, WriteOpen(v, q, nt), s.x);
    var x := s.x.(sequence := q + 1);
    t := CopyRuns(At(m, c, WriteCopy(v, q, 0, nt), x), threshold, c);
    StepTo(m, threshold, c, WriteCopy(v, q, 0, nt), x, t);
    StepTo(s, threshold, c, WriteOpen(v, q, nt), s.x, t);
  }
}
