/** A read that nobody disturbs: what it answers, and that it answers. */
module LatestReads {
  import opened LatestSlot
  import opened LatestAnswers

  /** What a read of a slot that stays as it is must answer. */
  function Answer(x: Slot, clock: nat, threshold: nat, rich: bool, retries: nat): ReadResult {
    if rich && x.sequence == 0 then Empty
    else if retries == 0 then Contended
    else if x.sequence % 2 == 0 then Success
    else if rich && retries >= 64 && Dead(clock, x.heartbeat, threshold) then WriterDead
    else Contended
  }

  /** Reader `r` takes every step. */
  predicate Walk(ss: seq<System>, threshold: nat, r: nat) {
    && ss != []
    && (forall i :: 0 <= i < |ss| ==> r < |ss[i].readers|)
    && (forall i :: 0 <= i < |ss| - 1 ==> Next(ss[i], threshold, ByReader(r), ss[i + 1]))
  }

  /** One whole call, from its first load to its answer. */
  predicate Call(ss: seq<System>, threshold: nat, r: nat) {
    && Walk(ss, threshold, r) && Begun(ss[0].readers[r]) && ss[|ss| - 1].readers[r].pc.Done?
    && forall i :: 0 <= i < |ss| - 1 ==> InCall(ss[i].readers[r].pc)
  }

  predicate Begun(rd: Reader) {
    rd.pc == (if rd.rich then FirstLoad else LoadSequence(0))
  }

  /** An odd sequence has kept the reader going up to attempt `i`. */
  predicate Spun(x: Slot, clock: nat, threshold: nat, rd: Reader, i: nat) {
    && (rd.rich ==> x.sequence != 0)
    && (i > 0 ==> x.sequence % 2 == 1)
    && (rd.rich && i >= 64 ==> !Dead(clock, x.heartbeat, threshold))
  }

  /** Where the reader stands on a slot that stays as it is. */
  predicate Stands(x: Slot, clock: nat, threshold: nat, rd: Reader) {
    match rd.pc
    case Resting => false
    case FirstLoad => rd.rich
    case LoadSequence(i) => Spun(x, clock, threshold, rd, i) && i <= rd.retries
    case CheckHeartbeat(i) =>
      Spun(x, clock, threshold, rd, i) && rd.rich && i % 64 == 63 && i < rd.retries
    case CheckNow(i, seen) =>
      Spun(x, clock, threshold, rd, i) && rd.rich && i % 64 == 63 && i < rd.retries && seen == x.heartbeat
    case CopyWords(i, s1, _, got) =>
      && Spun(x, clock, threshold, rd, i) && i < rd.retries && x.sequence % 2 == 0 && s1 == x.sequence
      && |got| <= |x.mem| && got == x.mem[..|got|]
    case Done(result, s1, _, got) =>
      && result == Answer(x, clock, threshold, rd.rich, rd.retries)
      && (result == Success ==> s1 == x.sequence && got == x.mem)
  }

  lemma StandsStep(x: Slot, clock: nat, threshold: nat, rd: Reader, rd': Reader)
    requires Stands(x, clock, threshold, rd) && InCall(rd.pc) && ReadStep(x, clock, threshold, rd, rd')
    ensures Stands(x, clock, threshold, rd') && rd'.rich == rd.rich && rd'.retries == rd.retries
  {
  }

  lemma {:induction false} WalkStands(ss: seq<System>, threshold: nat, r: nat, n: nat)
    requires Call(ss, threshold, r) && n < |ss|
    ensures var s, t := ss[0], ss[n];
      && t == s.(readers := s.readers[r := t.readers[r]])
      && Stands(s.x, s.clock, threshold, t.readers[r])
      && t.readers[r].rich == s.readers[r].rich && t.readers[r].retries == s.readers[r].retries
  {
    hide ReadStep, Answer, Spun, Dead;
    if n == 0 {
      Begins(ss[0].x, ss[0].clock, threshold, ss[0].readers[r]);
    } else {
      WalkStands(ss, threshold, r, n - 1);
      assert Next(ss[n - 1], threshold, ByReader(r), ss[n - 1 + 1]);
      StandsStep(ss[0].x, ss[0].clock, threshold, ss[n - 1].readers[r], ss[n].readers[r]);
    }
  }

  lemma Begins(x: Slot, clock: nat, threshold: nat, rd: Reader)
    requires Begun(rd)
    ensures Stands(x, clock, threshold, rd)
  {
  }

  /** Every read that nobody disturbs, from every state: its answer is exactly the one that the slot
      and the clock call for, a success returns the whole slot, and nothing else changes. */
  lemma SoloRead(ss: seq<System>, threshold: nat, r: nat)
    requires Call(ss, threshold, r)
    ensures var s, t := ss[0], ss[|ss| - 1];
      && t == s.(readers := s.readers[r := t.readers[r]])
      && t.readers[r].pc.result == Answer(s.x, s.clock, threshold, s.readers[r].rich, s.readers[r].retries)
      && (t.readers[r].pc.result == Success ==> t.readers[r].pc.s1 == s.x.sequence && t.readers[r].pc.got == s.x.mem)
  {
    hide Next, Answer;
    WalkStands(ss, threshold, r, |ss| - 1);
  }

  // ---- The read ends ----------------------------------------------------------------------------------

  function AttemptsLeft(rd: Reader): nat
    requires InCall(rd.pc)
  {
    if rd.pc.FirstLoad? then rd.retries + 1 else if rd.pc.i < rd.retries then rd.retries - rd.pc.i else 0
  }

  function StepsLeft(x: Slot, pc: ReadPc): nat {
    match pc
    case CheckHeartbeat(_) => 2
    case CheckNow(_, _) => 1
    case CopyWords(_, _, _, got) => if |got| <= |x.mem| then |x.mem| - |got| else 0
    case _ => |x.mem| + 3
  }

  lemma CanStep(x: Slot, clock: nat, threshold: nat, rd: Reader) returns (rd': Reader)
    requires InCall(rd.pc) && Stands(x, clock, threshold, rd)
    ensures ReadStep(x, clock, threshold, rd, rd')
  {
    match rd.pc
    case FirstLoad => rd' := rd.(pc := if x.sequence == 0 then Done(Empty, 0, x.epoch, []) else LoadSequence(0));
    case LoadSequence(i) =>
      rd' := rd.(pc := if i >= rd.retries then Done(Contended, 0, x.epoch, [])
                       else if x.sequence % 2 == 0 then CopyWords(i, x.sequence, x.epoch, [])
                       else if rd.rich && i % 64 == 63 then CheckHeartbeat(i)
                       else LoadSequence(i + 1));
    case CheckHeartbeat(i) => rd' := rd.(pc := CheckNow(i, x.heartbeat));
    case CheckNow(i, seen) =>
      rd' := rd.(pc := if Dead(clock, seen, threshold) then Done(WriterDead, 0, x.epoch, []) else LoadSequence(i + 1));
    case CopyWords(i, s1, ep, got) =>
      if |got| < |x.mem| {
        rd' := rd.(pc := CopyWords(i, s1, ep, got + [x.mem[|got|]]));
      } else if ep == x.epoch {
        rd' := rd.(pc := Done(Success, s1, ep, got), lastEp := ep, lastSeq := s1);
      } else {
        rd' := rd.(pc := Done(Success, s1, ep, got));
      }
  }

  /** There is a next step, and it brings the reader closer to its answer. */
  lemma Advances(s: System, threshold: nat, r: nat) returns (s': System)
    requires r < |s.readers| && InCall(s.readers[r].pc) && Stands(s.x, s.clock, threshold, s.readers[r])
    ensures Next(s, threshold, ByReader(r), s') && s'.x == s.x && s'.clock == s.clock
    ensures Stands(s.x, s.clock, threshold, s'.readers[r])
    ensures var rd, rd' := s.readers[r], s'.readers[r];
      || rd'.pc.Done?
      || (InCall(rd'.pc) && AttemptsLeft(rd') < AttemptsLeft(rd))
      || (InCall(rd'.pc) && AttemptsLeft(rd') == AttemptsLeft(rd) && StepsLeft(s.x, rd'.pc) < StepsLeft(s.x, rd.pc))
  {
    var rd := s.readers[r];
    var rd' := CanStep(s.x, s.clock, threshold, rd);
    StandsStep(s.x, s.clock, threshold, rd, rd');
    s' := s.(readers := s.readers[r := rd']);
  }

  lemma {:induction false} Finishes(s: System, threshold: nat, r: nat) returns (ss: seq<System>)
    requires r < |s.readers| && InCall(s.readers[r].pc) && Stands(s.x, s.clock, threshold, s.readers[r])
    ensures Walk(ss, threshold, r) && ss[0] == s && ss[|ss| - 1].readers[r].pc.Done?
    ensures forall i :: 0 <= i < |ss| - 1 ==> InCall(ss[i].readers[r].pc)
    decreases AttemptsLeft(s.readers[r]), StepsLeft(s.x, s.readers[r].pc)
  {
    var s' := Advances(s, threshold, r);
    hide ReadStep, Stands, AttemptsLeft, StepsLeft;
    var rest := [s'];
    if !s'.readers[r].pc.Done? {
      rest := Finishes(s', threshold, r);
    }
    ss := [s] + rest;
    forall i | 0 <= i < |ss| - 1 ensures Next(ss[i], threshold, ByReader(r), ss[i + 1]) && InCall(ss[i].readers[r].pc) {
      if i > 0 { assert Next(rest[i - 1], threshold, ByReader(r), rest[i - 1 + 1]); }
    }
  }

  /** Such a read ends, from every state. */
  lemma SoloReadEnds(s: System, threshold: nat, r: nat) returns (ss: seq<System>)
    requires r < |s.readers| && Begun(s.readers[r])
    ensures Call(ss, threshold, r) && ss[0] == s
  {
    Begins(s.x, s.clock, threshold, s.readers[r]);
    ss := Finishes(s, threshold, r);
  }
}
