/** A call of the multi-consumer `try_pop` that runs alone on a ring in which nobody holds a claim, as
    atomic steps: it pops the first message if there is one, and answers false only if there is none. */
module MpmcSolo {
  import opened Arithmetic
  import opened RingLayout
  import opened FrameLog
  import opened FrameLogFacts
  import opened Fifo
  import opened RingWriter
  import opened MpmcRing
  import opened MpmcProofs
  import opened MpmcFalse
  import MpmcProgress

  /** A step of consumer `c` inside its call; nothing else changes. */
  predicate StepOK(c: nat, r: Ring, claims: seq<nat>, pc: Consumer, r': Ring, claims': seq<nat>, pc': Consumer, e: Event) {
    0 < r.cap == |r.mem| && pc != Resting && ConsumerStep(r, claims, c, pc, r', claims', pc', e)
  }

  /** What a solo run changes. */
  datatype View = View(r: Ring, claims: seq<nat>, pc: Consumer)

  predicate Link(c: nat, v: View, v': View, e: Event) {
    StepOK(c, v.r, v.claims, v.pc, v'.r, v'.claims, v'.pc, e)
  }

  predicate Walk(c: nat, vs: seq<View>, es: seq<Event>) {
    |vs| == |es| + 1 && forall i :: 0 <= i < |es| ==> Link(c, vs[i], vs[i + 1], es[i])
  }

  /** A whole call. */
  predicate Call(c: nat, vs: seq<View>, es: seq<Event>) {
    Walk(c, vs, es) && vs[0].pc == LoadPublished && vs[|es|].pc == Resting
  }

  /** The invariants, with the other threads as they are. */
  predicate Sound(prods: seq<Producer>, cons: seq<Consumer>, c: nat, v: View) {
    && WriterInv(v.r, prods) && c < |cons| && v.r.cap > 0 && v.r.iTp <= |v.r.log|
    && ConsumersInv(v.r, v.claims, cons[c := v.pc])
  }

  /** While it runs alone, the consumer's snapshots are current and no claim but its own is open. */
  predicate Alone(v: View) {
    match v.pc
    case Resting => |v.claims| == v.r.iHp
    case LoadPublished => |v.claims| == v.r.iHp
    case LoadReserved(t) => |v.claims| == v.r.iHp && t == v.r.tp
    case Inspect(t, h) => |v.claims| == v.r.iHp && t == v.r.tp && h == v.r.hr && t != h
    case SawFlags(t, h, _) => |v.claims| == v.r.iHp && t == v.r.tp && h == v.r.hr && t != h
    case SawSize(t, h, _) => |v.claims| == v.r.iHp && t == v.r.tp && h == v.r.hr && t != h
    case Claimed(_, _, idx, _) => |v.claims| == v.r.iHp + 1 && idx == v.r.iHp
  }

  lemma Ordered(prods: seq<Producer>, cons: seq<Consumer>, c: nat, v: View)
    requires Sound(prods, cons, c, v)
    ensures RingInv(v.r) && v.r.hr <= v.r.tp && v.r.tp == Off(v.r.log, v.r.iTp)
    ensures |v.claims| == v.r.iHp && v.r.hr == v.r.tp ==> Queue(v.r) == []
  {
    var r := v.r;
    OffMono(r.cap, r.log, |v.claims|, r.iTp);
  }

  lemma SoundStep(prods: seq<Producer>, cons: seq<Consumer>, c: nat, v: View, v': View, e: Event)
    requires Sound(prods, cons, c, v) && Alone(v) && Link(c, v, v', e)
    ensures Sound(prods, cons, c, v') && v'.r.iTp <= |v'.r.log| && FifoStep(Queue(v.r), e, Queue(v'.r))
    ensures v'.r == v.r.(hr := v'.r.hr, hp := v'.r.hp, iHp := v'.r.iHp) && !e.Push?
  {
    Ordered(prods, cons, c, v);
    var cs := cons[c := v.pc];
    assert cs[c := v'.pc] == cons[c := v'.pc];
    hide WriterInv, ConsumersInv, ConsumerStep, FifoStep, RingInv, Messages;
    ConsumerKeeps(v.r, prods, v.claims, cs, c, v'.r, v'.claims, v'.pc, e);
    ConsumerShape(v.r, v.claims, cs, c, v'.r, v'.claims, v'.pc, e);
  }

  /** Alone, the consumer answers false only on an empty queue, and stays alone. */
  lemma AloneStep(prods: seq<Producer>, cons: seq<Consumer>, c: nat, v: View, v': View, e: Event)
    requires Sound(prods, cons, c, v) && Alone(v) && Link(c, v, v', e)
    ensures Alone(v')
    ensures AnswersFalse(v.pc, v'.pc, e) ==> Queue(v.r) == []
    ensures e.Pop? ==> v'.pc == Resting
  {
    Ordered(prods, cons, c, v);
    var r, cs := v.r, cons[c := v.pc];
    assert ConsumerOK(r, v.claims, c, cs[c]);
    if v.pc.Claimed? {
      hide RingInv, ConsumersInv, WriterInv;
      TaskAlone(c, v, v', e);
    } else {
      if Scanning(v.pc) {
        assert Boundary(r, v.pc.t);
        NoExit(r, v.claims, cs, c);
      }
      Exits(r, v.claims, c, v.pc, v'.r, v'.claims, v'.pc, e);
      if v'.pc.Claimed? {
        ClaimTakesNext(r, v.claims, cs, c, v.pc, v'.r, v'.claims, v'.pc, e);
      }
      hide RingInv, ConsumersInv, WriterInv, Messages;
      ScanAlone(c, v, v', e);
    }
  }

  lemma TaskAlone(c: nat, v: View, v': View, e: Event)
    requires Alone(v) && Link(c, v, v', e) && v.pc.Claimed? && ConsumerOK(v.r, v.claims, c, v.pc)
    ensures Alone(v') && !AnswersFalse(v.pc, v'.pc, e) && (e.Pop? ==> v'.pc == Resting)
  {
    hide Pos, TypeField, SequenceField;
  }

  lemma ScanAlone(c: nat, v: View, v': View, e: Event)
    requires Alone(v) && Link(c, v, v', e) && !v.pc.Claimed?
    requires v'.pc.Claimed? ==> v'.claims == v.claims + [c] && v'.r == v.r.(hr := v'.r.hr) && v'.pc.idx == |v.claims|
    requires AnswersFalse(v.pc, v'.pc, e) ==> v.pc.LoadReserved?
    ensures Alone(v') && !e.Pop?
    ensures AnswersFalse(v.pc, v'.pc, e) ==> v.r.hr == v.r.tp && |v.claims| == v.r.iHp
  {
    hide Pos, RecordSize, FlagsField, SizeField;
  }

  /** The call has popped `ps` so far, having started with the queue `q`. */
  predicate Stage(q: seq<Message>, v: View, ps: seq<Message>)
    requires v.r.iTp <= |v.r.log|
  {
    if ps == [] then Queue(v.r) == q && (v.pc == Resting ==> q == [])
    else q != [] && ps == [q[0]] && Queue(v.r) == q[1..] && v.pc == Resting
  }

  lemma {:induction false} Stages(prods: seq<Producer>, cons: seq<Consumer>, c: nat, vs: seq<View>, es: seq<Event>, n: nat)
    requires Walk(c, vs, es) && Sound(prods, cons, c, vs[0]) && vs[0].pc == LoadPublished && |vs[0].claims| == vs[0].r.iHp
    requires n < |vs|
    ensures Sound(prods, cons, c, vs[n]) && Alone(vs[n]) && vs[0].r.iTp <= |vs[0].r.log| && vs[n].r.iTp <= |vs[n].r.log|
    ensures Stage(Queue(vs[0].r), vs[n], Pops(es[..n]))
    ensures vs[n].r == vs[0].r.(hr := vs[n].r.hr, hp := vs[n].r.hp, iHp := vs[n].r.iHp)
  {
    hide Sound, Alone, Stage, Link;
    if n == 0 {
      StageStart(prods, cons, c, vs[0]);
    } else {
      var m := n - 1;
      Stages(prods, cons, c, vs, es, m);
      assert Link(c, vs[m], vs[m + 1], es[m]);
      assert es[..n][..m] == es[..m];
      StageStep(prods, cons, c, Queue(vs[0].r), vs[m], Pops(es[..m]), vs[n], es[m]);
    }
  }

  lemma StageStart(prods: seq<Producer>, cons: seq<Consumer>, c: nat, v: View)
    requires Sound(prods, cons, c, v) && v.pc == LoadPublished && |v.claims| == v.r.iHp
    ensures v.r.iTp <= |v.r.log| && Alone(v) && Stage(Queue(v.r), v, [])
  {}

  lemma StageStep(prods: seq<Producer>, cons: seq<Consumer>, c: nat, q: seq<Message>, v: View, ps: seq<Message>, v': View, e: Event)
    requires Sound(prods, cons, c, v) && Alone(v) && v.r.iTp <= |v.r.log| && Stage(q, v, ps) && Link(c, v, v', e)
    ensures Sound(prods, cons, c, v') && Alone(v') && v'.r.iTp <= |v'.r.log|
    ensures Stage(q, v', ps + if e.Pop? then [e.popped] else [])
    ensures v'.r == v.r.(hr := v'.r.hr, hp := v'.r.hp, iHp := v'.r.iHp)
  {
    hide Alone, WriterInv, ConsumersInv, Messages, ConsumerStep;
    SoundStep(prods, cons, c, v, v', e);
    AloneStep(prods, cons, c, v, v', e);
    assert ps == [];
  }

  /** Every call that runs alone while no claim is open, whatever the other threads have begun: with
      messages queued it pops exactly the first one, with none it pops nothing, and it leaves no claim
      open and everything but the head as it was. */
  lemma SoloPop(prods: seq<Producer>, cons: seq<Consumer>, c: nat, vs: seq<View>, es: seq<Event>)
    requires Call(c, vs, es) && Sound(prods, cons, c, vs[0]) && |vs[0].claims| == vs[0].r.iHp
    ensures var r, t := vs[0].r, vs[|es|].r;
      && t.iTp <= |t.log| && t == r.(hr := t.hr, hp := t.hp, iHp := t.iHp) && t.hr == t.hp
      && (Queue(r) != [] ==> Pops(es) == [Queue(r)[0]] && Queue(t) == Queue(r)[1..])
      && (Queue(r) == [] ==> Pops(es) == [] && Queue(t) == [])
  {
    Stages(prods, cons, c, vs, es, |es|);
    assert es[..|es|] == es;
  }

  // ---- A call that runs alone ends ----------------------------------------------------------------

  function Rank(pc: Consumer): nat {
    match pc
    case Resting => 0
    case LoadPublished => 6
    case LoadReserved(_) => 5
    case Inspect(_, _) => 4
    case SawFlags(_, _, _) => 3
    case SawSize(_, _, _) => 2
    case Claimed(_, _, _, _) => 1
  }

  function TaskLeft(pc: Consumer): nat {
    if pc.Claimed? then MpmcProgress.Work(pc.task) else 0
  }

  predicate Closer(v: View, v': View) {
    || v.r.iHp < v'.r.iHp <= v'.r.iTp == v.r.iTp
    || (&& v'.r.iHp == v.r.iHp && v'.r.iTp == v.r.iTp
        && (Rank(v'.pc) < Rank(v.pc) || (Rank(v'.pc) == Rank(v.pc) && TaskLeft(v'.pc) < TaskLeft(v.pc))))
  }

  /** The step of a consumer that has no claim and whose exchange, if any, succeeds. */
  lemma ScanMoves(c: nat, v: View) returns (v': View)
    requires 0 < v.r.cap == |v.r.mem| && v.pc != Resting && !v.pc.Claimed?
    requires Scanning(v.pc) ==> v.pc.h == v.r.hr
    requires v.pc.SawFlags? ==> Pos(v.pc.h, v.r.cap) + HEADER <= v.r.cap
    ensures Link(c, v, v', Internal) && Closer(v, v')
  {
    hide Pos, RecordSize, FlagsField, SizeField;
    var r, claims := v.r, v.claims;
    v' := v;
    match v.pc
    case LoadPublished => v' := v.(pc := LoadReserved(r.tp));
    case LoadReserved(t) => v' := v.(pc := if r.hr == t then Resting else Inspect(t, r.hr));
    case Inspect(t, h) =>
      var remaining := r.cap - Pos(h, r.cap);
      if TooLittle(r.cap, v.pc) {
        v' := v.(pc := Resting);
      } else if remaining < HEADER {
        v' := Claims(c, v, h, h + remaining, Skip(false));
      } else {
        v' := v.(pc := SawFlags(t, h, FlagsField(r.mem, Pos(h, r.cap))));
      }
    case SawFlags(t, h, flags) =>
      if TooLittle(r.cap, v.pc) {
        v' := v.(pc := Resting);
      } else if IsWrap(flags) {
        v' := Claims(c, v, h, h + (r.cap - Pos(h, r.cap)), Skip(false));
      } else {
        v' := v.(pc := SawSize(t, h, SizeField(r.mem, Pos(h, r.cap))));
      }
    case SawSize(_, h, size) =>
      if TooLittle(r.cap, v.pc) {
        v' := v.(pc := Resting);
      } else {
        v' := Claims(c, v, h, h + RecordSize(size), CopyOut(size, []));
      }
  }

  /** A successful exchange. */
  function Claims(c: nat, v: View, h: nat, nh: nat, task: Task): View {
    View(v.r.(hr := nh), v.claims + [c], Claimed(h, nh, |v.claims|, task))
  }

  lemma Moves(prods: seq<Producer>, cons: seq<Consumer>, c: nat, v: View) returns (v': View, e: Event)
    requires Sound(prods, cons, c, v) && Alone(v) && v.pc != Resting
    ensures Link(c, v, v', e) && Closer(v, v')
  {
    Ordered(prods, cons, c, v);
    var r, cs := v.r, cons[c := v.pc];
    assert ConsumerOK(r, v.claims, c, cs[c]) && 0 < r.cap == |r.mem| && |v.claims| <= r.iTp;
    e := Internal;
    if v.pc.Claimed? {
      if !v.pc.task.Skip? {
        ReadRecord(r, r.iHp);
      }
      ClaimAtHead(prods, cons, c, v);
      hide RingInv, ConsumersInv, WriterInv, Pos, TaskStep;
      var r', pc';
      r', pc', e := MpmcProgress.TaskMoves(r, c, v.pc);
      v' := View(r', v.claims, pc');
      TaskCloser(c, v, v', e);
    } else {
      hide RingInv, ConsumersInv, WriterInv, Link, Closer;
      v' := ScanMoves(c, v);
    }
  }

  lemma ClaimAtHead(prods: seq<Producer>, cons: seq<Consumer>, c: nat, v: View)
    requires Sound(prods, cons, c, v) && Alone(v) && v.pc.Claimed? && ConsumerOK(v.r, v.claims, c, v.pc)
    ensures v.r.hp == v.pc.h
  {
    assert RingInv(v.r);
    assert v.r.log[v.r.iHp].lo == Off(v.r.log, v.r.iHp);
  }

  lemma TaskCloser(c: nat, v: View, v': View, e: Event)
    requires 0 < v.r.cap == |v.r.mem| && v.pc.Claimed? && v'.claims == v.claims && TaskStep(v.r, c, v.pc, v'.r, v'.pc, e)
    requires v'.r.iTp == v.r.iTp && v.pc.idx == v.r.iHp < v.r.iTp
    requires if v'.pc.Claimed? then MpmcProgress.Work(v'.pc.task) < MpmcProgress.Work(v.pc.task) && v'.r.iHp == v.r.iHp else v.r.iHp < v'.r.iHp
    ensures Link(c, v, v', e) && Closer(v, v')
  {
    hide Pos, TypeField, SequenceField;
  }

  lemma {:induction false} Finishes(prods: seq<Producer>, cons: seq<Consumer>, c: nat, v: View)
    returns (vs: seq<View>, es: seq<Event>)
    requires Sound(prods, cons, c, v) && Alone(v)
    ensures Walk(c, vs, es) && vs[0] == v && vs[|es|].pc == Resting
    decreases if v.r.iHp <= v.r.iTp then v.r.iTp - v.r.iHp else 0, Rank(v.pc), TaskLeft(v.pc)
  {
    if v.pc == Resting {
      return [v], [];
    }
    hide Rank, TaskLeft, Sound, Alone, Link;
    var v', e := Moves(prods, cons, c, v);
    SoundStep(prods, cons, c, v, v', e);
    AloneStep(prods, cons, c, v, v', e);
    vs, es := Finishes(prods, cons, c, v');
    WalkCons(c, v, e, vs, es);
    vs, es := [v] + vs, [e] + es;
  }

  lemma WalkCons(c: nat, v: View, e: Event, vs: seq<View>, es: seq<Event>)
    requires Walk(c, vs, es) && Link(c, v, vs[0], e)
    ensures Walk(c, [v] + vs, [e] + es)
  {
    hide Link;
    var vs', es' := [v] + vs, [e] + es;
    forall i | 0 <= i < |es'| ensures Link(c, vs'[i], vs'[i + 1], es'[i]) {
      if i > 0 { assert Link(c, vs[i - 1], vs[i - 1 + 1], es[i - 1]); }
    }
  }

  /** Such a call can end, from every state of the ring in which no claim is open. */
  lemma SoloPopEnds(prods: seq<Producer>, cons: seq<Consumer>, c: nat, v: View) returns (vs: seq<View>, es: seq<Event>)
    requires Sound(prods, cons, c, v) && v.pc == LoadPublished && |v.claims| == v.r.iHp
    ensures Call(c, vs, es) && vs[0] == v
  {
    vs, es := Finishes(prods, cons, c, v);
  }
}
