/** Claims tile the claimed region, the turn to hand back always belongs to exactly one consumer,
    and the consumers that hold claims can always hand everything back. */
module MpmcProgress {
  import opened Arithmetic
  import opened RingLayout
  import opened FrameLog
  import opened FrameLogFacts
  import opened Fifo
  import opened RingWriter
  import opened MpmcRing
  import opened MpmcProofs

  predicate Covers(cons: seq<Consumer>, c: nat, x: nat) {
    c < |cons| && cons[c].Claimed? && cons[c].h <= x < cons[c].nh
  }

  lemma ClaimFrame(r: Ring, claims: seq<nat>, cons: seq<Consumer>, c: nat)
    requires RingInv(r) && ConsumersInv(r, claims, cons) && c < |cons| && cons[c].Claimed?
    ensures r.cap > 0 && LogOK(r.cap, r.log) && r.iHp <= cons[c].idx < |claims| <= |r.log|
    ensures cons[c].h == Off(r.log, cons[c].idx) && cons[c].nh == Off(r.log, cons[c].idx + 1)
    ensures r.hp == Off(r.log, r.iHp) && r.hr == Off(r.log, |claims|)
    ensures 0 < Len(r.log[cons[c].idx])
  {}

  /** Every claim lies in the claimed region. */
  lemma ClaimInside(r: Ring, claims: seq<nat>, cons: seq<Consumer>, c: nat)
    requires RingInv(r) && ConsumersInv(r, claims, cons) && c < |cons| && cons[c].Claimed?
    ensures r.hp <= cons[c].h < cons[c].nh <= r.hr
  {
    hide RingInv, ConsumersInv, ConsumerOK, LogOK, Off;
    var i := cons[c].idx;
    ClaimFrame(r, claims, cons, c);
    OffMono(r.cap, r.log, r.iHp, i);
    OffMono(r.cap, r.log, i, i + 1);
    OffMono(r.cap, r.log, i + 1, |claims|);
  }

  /** Every claimed byte that is not handed back belongs to exactly one consumer. */
  lemma ClaimsTile(r: Ring, claims: seq<nat>, cons: seq<Consumer>, x: nat)
    requires RingInv(r) && ConsumersInv(r, claims, cons) && r.hp <= x < r.hr
    ensures exists c :: Covers(cons, c, x) && forall c' :: Covers(cons, c', x) ==> c' == c
  {
    var k := FrameAt(r.cap, r.log, r.iHp, |claims|, x);
    var c := claims[k];
    assert HoldsClaim(cons, c, k);
    assert ConsumerOK(r, claims, c, cons[c]);
    assert Covers(cons, c, x);
    forall c': nat | Covers(cons, c', x)
      ensures c' == c
    {
      assert ConsumerOK(r, claims, c', cons[c']);
      FrameAtUnique(r.cap, r.log, k, cons[c'].idx, x);
    }
  }

  predicate NextInTurn(r: Ring, cons: seq<Consumer>, c: nat) {
    c < |cons| && cons[c].Claimed? && cons[c].h == r.hp
  }

  /** Whenever something is claimed, exactly one consumer may hand back next. */
  lemma TurnHolder(r: Ring, claims: seq<nat>, cons: seq<Consumer>) returns (c: nat)
    requires RingInv(r) && ConsumersInv(r, claims, cons) && r.hp < r.hr
    ensures NextInTurn(r, cons, c) && cons[c].idx == r.iHp < |claims| && claims[r.iHp] == c
    ensures forall c' :: NextInTurn(r, cons, c') ==> c' == c
  {
    c := claims[r.iHp];
    assert HoldsClaim(cons, c, r.iHp);
    assert r.log[r.iHp].lo == Off(r.log, r.iHp);
    assert ConsumerOK(r, claims, c, cons[c]);
    forall c': nat | NextInTurn(r, cons, c')
      ensures c' == c
    {
      assert ConsumerOK(r, claims, c', cons[c']);
      SeesTurn(r, cons[c'].idx);
    }
  }

  // ---- Progress ------------------------------------------------------------------------------

  /** Number of consumers that hold a claim. */
  function ClaimCount(cons: seq<Consumer>): nat {
    if cons == [] then 0
    else ClaimCount(cons[..|cons| - 1]) + if cons[|cons| - 1].Claimed? then 1 else 0
  }

  lemma {:induction false} CountUpdate(cons: seq<Consumer>, c: nat, pc: Consumer)
    requires c < |cons|
    ensures ClaimCount(cons[c := pc]) + (if cons[c].Claimed? then 1 else 0)
         == ClaimCount(cons) + (if pc.Claimed? then 1 else 0)
  {
    var n := |cons| - 1;
    if c < n {
      CountUpdate(cons[..n], c, pc);
      assert cons[c := pc][..n] == cons[..n][c := pc];
    } else {
      assert cons[c := pc][..n] == cons[..n];
    }
  }

  /** Each store to `head_publish` takes one consumer out of its claim. */
  lemma HandBackDecreases(r: Ring, claims: seq<nat>, cons: seq<Consumer>, c: nat, r': Ring, claims': seq<nat>, pc': Consumer, e: Event)
    requires 0 < r.cap == |r.mem| && c < |cons| && r'.hp != r.hp
    requires ConsumerStep(r, claims, c, cons[c], r', claims', pc', e)
    ensures ClaimCount(cons[c := pc']) == ClaimCount(cons) - 1
  {
    CountUpdate(cons, c, pc');
  }

  function Work(task: Task): nat {
    match task
    case Skip(turn) => if turn then 1 else 2
    case CopyOut(size, got) => if |got| <= size then 4 + size - |got| else 0
    case LoadSequence(_, _) => 3
    case HandBack(_, _, _, turn) => if turn then 1 else 2
  }

  /** A consumer whose turn it is can always go on with its task. */
  lemma TaskMoves(r: Ring, c: nat, pc: Consumer) returns (r': Ring, pc': Consumer, e: Event)
    requires 0 < r.cap == |r.mem| && pc.Claimed? && r.hp == pc.h && pc.idx == r.iHp < |r.log|
    requires TaskOK(r, r.log[pc.idx], pc.idx, pc.task)
    requires !pc.task.Skip? ==> Pos(pc.h, r.cap) + HEADER + |r.log[pc.idx].payload| <= |r.mem|
    ensures TaskStep(r, c, pc, r', pc', e)
    ensures r'.log == r.log && r'.iTp == r.iTp
    ensures if pc'.Claimed? then Work(pc'.task) < Work(pc.task) && r'.iHp == r.iHp else r.iHp < r'.iHp
  {
    hide Pos;
    var at := Pos(pc.h, r.cap);
    r', e := r, Internal;
    match pc.task
    case Skip(turn) =>
      if turn {
        r', pc' := r.(hp := pc.nh, iHp := pc.idx + 1), LoadPublished;
      } else {
        pc' := pc.(task := Skip(true));
      }
    case CopyOut(size, got) =>
      pc' := pc.(task := if |got| < size then CopyOut(size, got + [r.mem[at + HEADER + |got|]])
                         else LoadSequence(got, TypeField(r.mem, at)));
    case LoadSequence(got, typ) =>
      pc' := pc.(task := HandBack(got, typ, SequenceField(r.mem, at), false));
    case HandBack(got, typ, sequence, turn) =>
      if turn {
        r', pc', e := r.(hp := pc.nh, iHp := pc.idx + 1), Resting, Pop(c, Message(typ, got, sequence));
      } else {
        pc' := pc.(task := HandBack(got, typ, sequence, true));
      }
  }

  lemma TurnHolderMoves(r: Ring, claims: seq<nat>, cons: seq<Consumer>, c: nat)
    returns (r': Ring, pc': Consumer, e: Event)
    requires RingInv(r) && ConsumersInv(r, claims, cons) && NextInTurn(r, cons, c) && cons[c].idx == r.iHp
    ensures ConsumerStep(r, claims, c, cons[c], r', claims, pc', e)
    ensures r'.log == r.log && r'.iTp == r.iTp
    ensures if pc'.Claimed? then Work(pc'.task) < Work(cons[c].task) && r'.iHp == r.iHp else r.iHp < r'.iHp
  {
    var pc := cons[c];
    assert ConsumerOK(r, claims, c, pc);
    assert 0 < r.cap == |r.mem| && r.iHp < r.iTp <= |r.log|;
    if !pc.task.Skip? {
      ReadRecord(r, r.iHp);
    }
    hide RingInv, ConsumersInv, Pos, TaskStep;
    r', pc', e := TaskMoves(r, c, pc);
  }

  /** A step of a consumer that already holds a claim. */
  ghost predicate ClaimLink(r: Ring, claims: seq<nat>, cons: seq<Consumer>, r': Ring, cons': seq<Consumer>) {
    exists c: nat, pc': Consumer, e: Event ::
      && 0 < r.cap == |r.mem| && c < |cons| && cons[c].Claimed?
      && ConsumerStep(r, claims, c, cons[c], r', claims, pc', e)
      && cons' == cons[c := pc']
  }

  ghost predicate Path(claims: seq<nat>, rs: seq<Ring>, cs: seq<seq<Consumer>>) {
    && |rs| == |cs| > 0
    && forall i :: 0 <= i < |rs| - 1 ==> ClaimLink(rs[i], claims, cs[i], rs[i + 1], cs[i + 1])
  }

  lemma PathCons(claims: seq<nat>, r: Ring, cons: seq<Consumer>, rs: seq<Ring>, cs: seq<seq<Consumer>>)
    requires Path(claims, rs, cs) && ClaimLink(r, claims, cons, rs[0], cs[0])
    ensures Path(claims, [r] + rs, [cons] + cs)
  {}

  function Remaining(r: Ring, claims: seq<nat>, cons: seq<Consumer>): nat {
    if r.iHp < |claims| && claims[r.iHp] < |cons| && cons[claims[r.iHp]].Claimed?
    then Work(cons[claims[r.iHp]].task) else 0
  }

  /** No deadlock: from every reachable state the consumers that hold claims can, on their own,
      hand back everything claimed. */
  lemma {:induction false} Drain(r: Ring, prods: seq<Producer>, claims: seq<nat>, cons: seq<Consumer>)
    returns (rs: seq<Ring>, cs: seq<seq<Consumer>>)
    requires WriterInv(r, prods) && ConsumersInv(r, claims, cons)
    ensures Path(claims, rs, cs) && rs[0] == r && cs[0] == cons
    ensures WriterInv(rs[|rs| - 1], prods) && ConsumersInv(rs[|rs| - 1], claims, cs[|rs| - 1])
    ensures rs[|rs| - 1].log == r.log && rs[|rs| - 1].iHp == |claims|
    decreases |claims| - r.iHp, Remaining(r, claims, cons)
  {
    if r.iHp == |claims| {
      return [r], [cons];
    }
    OffMono(r.cap, r.log, r.iHp, |claims|);
    var c := TurnHolder(r, claims, cons);
    var r', pc', e := TurnHolderMoves(r, claims, cons, c);
    var cons' := cons[c := pc'];
    ConsumerKeeps(r, prods, claims, cons, c, r', claims, pc', e);
    assert ClaimLink(r, claims, cons, r', cons');
    rs, cs := Drain(r', prods, claims, cons');
    PathCons(claims, r, cons, rs, cs);
    rs, cs := [r] + rs, [cons] + cs;
  }
}
