/** What the shared writer's answers mean, whatever the other threads do in between. */
module WriterAnswers {
  import opened Arithmetic
  import opened RingLayout
  import opened FrameLog
  import opened Fifo
  import opened RingWriter

  /** Between head `h` and tail `t` there is no room for a record of `n` payload bytes, together with
      the padding up to the boundary that it needs if it does not fit before it. */
  predicate NoRoom(cap: nat, h: nat, t: nat, n: nat)
    requires cap > 0 && h <= t
  {
    var left, size := cap - t % cap, RecordSize(n);
    t - h + (if left < size then left else 0) + size > cap
  }

  /** One step of a call: it keeps its request; a push carries it and ends the call; and the call ends
      without a push exactly at the reservation, if its two snapshots leave no room. In particular a
      failed exchange goes round again. */
  lemma CallStep(r: Ring, p: nat, pc: Producer, r': Ring, pc': Producer, e: Event)
    requires r.cap > 0 && ProducerStep(r, p, pc, r', pc', e) && pc != Idle && (pc.Reserve? ==> pc.h <= pc.t)
    ensures pc' != Idle ==> pc'.req == pc.req
    ensures e.Push? ==> pc' == Idle && e.who == p && e.pushed.typ == pc.req.typ && e.pushed.payload == pc.req.payload
    ensures pc' == Idle && !e.Push? <==> pc.Reserve? && NoRoom(r.cap, pc.h, pc.t, |pc.req.payload|)
    ensures pc.Reserve? && pc' != Idle ==> pc' == LoadHead(pc.req) || pc'.InFlight?
  {
    if pc.Reserve? {
      PosIsMod(pc.t, r.cap);
    }
    hide Pos, RecordSize;
  }

  /** What producer `p` sees of a run: its own steps, and whatever the others do to the ring. */
  predicate Moves(p: nat, r: Ring, pc: Producer, r': Ring, pc': Producer, e: Event) {
    r.cap > 0 && ProducerStep(r, p, pc, r', pc', e)
  }

  predicate Trace(p: nat, rs: seq<Ring>, pcs: seq<Producer>, es: seq<Event>) {
    && |rs| == |pcs| == |es| + 1 && pcs[0] == Idle
    && forall i :: 0 <= i < |es| ==> Moves(p, rs[i], pcs[i], rs[i + 1], pcs[i + 1], es[i]) || pcs[i + 1] == pcs[i]
  }

  /** The producer loads the head at step `i`. */
  predicate LoadsHead(rs: seq<Ring>, pcs: seq<Producer>, i: nat, q: Request, h: nat) {
    i + 1 < |rs| == |pcs| && pcs[i] == LoadHead(q) && rs[i].hp == h && pcs[i + 1] == LoadTail(q, h)
  }

  predicate LoadsTail(rs: seq<Ring>, pcs: seq<Producer>, j: nat, q: Request, h: nat, t: nat) {
    j + 1 < |rs| == |pcs| && pcs[j] == LoadTail(q, h) && rs[j].tr == t && pcs[j + 1] == Reserve(q, h, t)
  }

  /** The call has not gone round again since its head load at `i`. */
  predicate SameTurn(pcs: seq<Producer>, i: nat, n: nat) {
    n < |pcs| && forall k :: i < k <= n ==> pcs[k].LoadTail? || pcs[k].Reserve?
  }

  lemma {:induction false} HeadSnapshot(p: nat, rs: seq<Ring>, pcs: seq<Producer>, es: seq<Event>, n: nat) returns (i: nat)
    requires Trace(p, rs, pcs, es) && n < |rs| && pcs[n].LoadTail?
    ensures i < n && LoadsHead(rs, pcs, i, pcs[n].req, pcs[n].h) && SameTurn(pcs, i, n)
  {
    var m := n - 1;
    if pcs[n] == pcs[m] {
      i := HeadSnapshot(p, rs, pcs, es, m);
    } else {
      assert Moves(p, rs[m], pcs[m], rs[m + 1], pcs[m + 1], es[m]);
      i := m;
    }
  }

  /** The snapshots of a producer that is about to reserve are values that `head_publish` and
      `tail_reserve` had at its two loads of this turn of its loop. */
  lemma {:induction false} Snapshots(p: nat, rs: seq<Ring>, pcs: seq<Producer>, es: seq<Event>, n: nat) returns (i: nat, j: nat)
    requires Trace(p, rs, pcs, es) && n < |rs| && pcs[n].Reserve?
    ensures i < j < n && SameTurn(pcs, i, n)
    ensures LoadsHead(rs, pcs, i, pcs[n].req, pcs[n].h) && LoadsTail(rs, pcs, j, pcs[n].req, pcs[n].h, pcs[n].t)
  {
    var m := n - 1;
    if pcs[n] == pcs[m] {
      i, j := Snapshots(p, rs, pcs, es, m);
    } else {
      assert Moves(p, rs[m], pcs[m], rs[m + 1], pcs[m + 1], es[m]);
      j := m;
      i := HeadSnapshot(p, rs, pcs, es, m);
    }
  }
}
