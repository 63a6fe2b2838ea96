/** When a push fits, and how the two writers compare. */
module PushFit {
  import opened Arithmetic
  import opened RingLayout
  import opened RingDecode
  import opened PushSpec
  import opened RingBuffer

  /** The two writers side by side, from rings that agree: the same answer, identical bytes, tail and
      sequence counter on success; after a refusal the shared ring is untouched and both decode to
      the queue they had. */
  method CompareWriters(shared: Ring, single: Ring, src: Source, typ: nat) returns (ok: bool, ok': bool)
    requires shared != single && shared.ring != single.ring
    requires shared.Valid() && single.Valid() && ValidArguments(src, typ)
    requires shared.cap == single.cap && shared.headPublish == single.headPublish
    requires shared.State() == single.State() && shared.tailReserve == shared.tailPublish
    modifies shared, shared.ring, single, single.ring
    ensures shared.Valid() && single.Valid()
    ensures ok == ok'
    ensures ok ==> shared.State() == single.State()
    ensures shared.Contents() == single.Contents()
    ensures shared.Contents() == old(shared.Contents())
      + if ok then [Message(typ, PayloadOf(src), (old(shared.sequence) + 1) % TWO64)] else []
    ensures !ok ==>
      && shared.State() == old(shared.State())
      && single.ring[..] == old(single.ring[..]) && single.sequence == old(single.sequence)
  {
    assert shared.Contents() == single.Contents() by { SameContents(shared, single); }
    ok := shared.PushShared(src, typ);
    ok' := single.PushSingle(src, typ);
    hide Decode, Fits, PushMem, RecordSize, Pos;
  }

  lemma SameContents(a: Ring, b: Ring)
    requires a.Valid() && b.Valid() && a.cap == b.cap && a.headPublish == b.headPublish && a.State() == b.State()
    ensures a.Contents() == b.Contents()
  {
    hide Decode;
  }

  /** On an empty ring at position `p` a record of size `r` fits exactly when it fits before the
      boundary or in front of `p`: always if it takes at most half the capacity, and otherwise not
      at the positions strictly between `cap - r` and `r`. */
  lemma EmptyFit(cap: nat, t: nat, n: nat)
    requires cap > 0
    ensures var p, r := Pos(t, cap), RecordSize(n);
      && (Fits(cap, t, t, n) <==> r <= cap - p || r <= p)
      && (2 * r <= cap ==> Fits(cap, t, t, n))
      && (!Fits(cap, t, t, n) <==> cap - r < p < r)
  {
  }

  /** Pushing a record that is stuck on an empty ring through the single-producer writer, letting the
      consumer look, and pushing again: the second push succeeds if and only if the gap before the
      boundary is too short for a header, because the first one has then published it. */
  method RetrySingle(ring: Ring, src: Source, typ: nat) returns (first: bool, second: bool)
    requires ring.Valid() && ValidArguments(src, typ) && Admissible(ring.cap, src)
    requires ring.headPublish == ring.tailPublish
    requires !Fits(ring.cap, ring.tailPublish, ring.tailPublish, |PayloadOf(src)|)
    modifies ring, ring.ring
    ensures !first && (second <==> Remaining(ring.cap, old(ring.tailPublish)) < HEADER)
    ensures ring.Valid()
    ensures ring.Contents() == if second then [Message(typ, PayloadOf(src), (old(ring.sequence) + 1) % TWO64)] else []
  {
    hide Fits, Decode, RecordSize, Pos, AfterSingle, GapTail, Remaining;
    ghost var t, n := ring.tailPublish, |PayloadOf(src)|;
    ghost var req := Request(typ, PayloadOf(src));
    NothingQueued(ring);
    RefusedTail(ring.cap, t, ring.State(), req);
    first := ring.PushSingle(src, typ);
    var ok, _, _, _ := ring.TryPop([], 0, 0);
    SecondFits(ring.cap, t, n);
    second := ring.PushSingle(src, typ);
  }

  lemma RefusedTail(cap: nat, h: nat, b: Bank, req: Request)
    requires 0 < cap == |b.mem| && RecordSize(|req.payload|) <= cap && !Fits(cap, h, b.tp, |req.payload|)
    ensures var c := AfterSingle(cap, h, b, req); c.tp == GapTail(cap, h, b.tp) && c.sq == b.sq
  {}

  lemma SecondFits(cap: nat, t: nat, n: nat)
    requires cap > 0 && RecordSize(n) <= cap && !Fits(cap, t, t, n)
    ensures Fits(cap, GapTail(cap, t, t), GapTail(cap, t, t), n) <==> Remaining(cap, t) < HEADER
  {
    EmptyFit(cap, t, n);
    if Remaining(cap, t) < HEADER {
      PosWrap(t, Remaining(cap, t), cap);
      EmptyFit(cap, t + Remaining(cap, t), n);
    }
  }

  lemma NothingQueued(ring: Ring)
    requires ring.Valid() && ring.headPublish == ring.tailPublish
    ensures ring.Contents() == []
  {}
}
