/** How frames lie in the ring, and what stores and reads do to them. */
module FrameLogFacts {
  import opened Arithmetic
  import opened Bytes
  import opened RingLayout
  import opened FrameLog

  lemma {:induction false} MessagesPrefix(log: seq<Frame>, log': seq<Frame>, i: nat, j: nat)
    requires log <= log' && j <= |log|
    ensures Messages(log', i, j) == Messages(log, i, j)
    decreases j
  {
    if i < j { MessagesPrefix(log, log', i, j - 1); }
  }

  lemma {:induction false} MessagesHead(log: seq<Frame>, i: nat, j: nat)
    requires i < j <= |log|
    ensures Messages(log, i, j) == (if log[i].Rec? then [MessageOf(log[i])] else []) + Messages(log, i + 1, j)
    decreases j
  {
    hide MessageOf;
    if i + 1 < j {
      MessagesHead(log, i, j - 1);
    } else {
      assert Messages(log, i, i) == Messages(log, i + 1, j) == [];
    }
  }

  // ---- Layout facts ----------------------------------------------------------------------

  /** Offsets grow with the index. */
  lemma {:induction false} OffMono(cap: nat, log: seq<Frame>, i: nat, j: nat)
    requires cap > 0 && LogOK(cap, log)
    requires i <= j <= |log|
    ensures Off(log, i) <= Off(log, j)
    ensures i < j ==> Off(log, i) < Off(log, j)
    decreases j
  {
    if i < j {
      OffMono(cap, log, i, j - 1);
      assert FrameOK(cap, log[j - 1]) && log[j - 1].lo == Off(log, j - 1);
    }
  }

  /** Distinct frames of the live window occupy disjoint physical ranges. */
  lemma FramesDisjoint(r: Ring, i: nat, j: nat)
    requires RingInv(r)
    requires r.iHp <= i < |r.log| && r.iHp <= j < |r.log| && i != j
    ensures var f, g := r.log[i], r.log[j];
            Pos(f.lo, r.cap) + Len(f) <= Pos(g.lo, r.cap) || Pos(g.lo, r.cap) + Len(g) <= Pos(f.lo, r.cap)
  {
    if i < j {
      FramesDisjointOrdered(r, i, j);
    } else {
      FramesDisjointOrdered(r, j, i);
    }
  }

  lemma FramesDisjointOrdered(r: Ring, i: nat, j: nat)
    requires RingInv(r)
    requires r.iHp <= i < j < |r.log|
    ensures var f, g := r.log[i], r.log[j];
            Pos(f.lo, r.cap) + Len(f) <= Pos(g.lo, r.cap) || Pos(g.lo, r.cap) + Len(g) <= Pos(f.lo, r.cap)
  {
    var f, g := r.log[i], r.log[j];
    assert FrameOK(r.cap, f) && f.lo == Off(r.log, i);
    assert FrameOK(r.cap, g) && g.lo == Off(r.log, j);
    assert f.lo + Len(f) <= g.lo by { OffMono(r.cap, r.log, i + 1, j); }
    assert g.lo + Len(g) <= f.lo + r.cap by {
      OffMono(r.cap, r.log, r.iHp, i);
      OffMono(r.cap, r.log, j + 1, |r.log|);
    }
    PhysicalDisjoint(f.lo, Len(f), g.lo, Len(g), r.cap);
  }

  /** A finished frame depends on its own bytes only. */
  lemma StoredKept(cap: nat, mem: seq<byte>, mem': seq<byte>, f: Frame)
    requires cap > 0 && FrameOK(cap, f)
    requires Stored(cap, mem, f)
    requires SameOn(mem, mem', Pos(f.lo, cap), Pos(f.lo, cap) + Len(f))
    ensures Stored(cap, mem', f)
  {
    var p := Pos(f.lo, cap);
    match f
    case Pad(_, len, _, _) =>
      if len >= HEADER {
        HoldsKept(mem, mem', p, p + len, p + 6, LE(WRAP_FLAG, 2));
      }
    case Rec(_, typ, payload, ord, _) =>
      RecordBytesKept(mem, mem', p, Request(typ, payload), ord + 1, |payload|);
  }

  /** A store inside frame `j` leaves every other live frame alone. */
  lemma StoreInFrame(r: Ring, j: nat, a: nat, bs: seq<byte>, i: nat)
    requires RingInv(r)
    requires r.iHp <= j < |r.log| && r.iHp <= i < |r.log| && i != j
    requires Pos(r.log[j].lo, r.cap) <= a && a + |bs| <= Pos(r.log[j].lo, r.cap) + Len(r.log[j])
    ensures a + |bs| <= |r.mem|
    ensures SameOn(r.mem, Write(r.mem, a, bs), Pos(r.log[i].lo, r.cap), Pos(r.log[i].lo, r.cap) + Len(r.log[i]))
  {
    assert FrameOK(r.cap, r.log[j]);
    FramesDisjoint(r, i, j);
    WriteElsewhere(r.mem, a, bs, Pos(r.log[i].lo, r.cap), Pos(r.log[i].lo, r.cap) + Len(r.log[i]));
  }

  /** A store into a frame that is not published keeps the ring invariant. */
  lemma StoreKeepsRing(r: Ring, j: nat, a: nat, bs: seq<byte>)
    requires RingInv(r)
    requires r.iTp <= j < |r.log|
    requires Pos(r.log[j].lo, r.cap) <= a && a + |bs| <= Pos(r.log[j].lo, r.cap) + Len(r.log[j])
    ensures a + |bs| <= |r.mem|
    ensures RingInv(r.(mem := Write(r.mem, a, bs)))
  {
    assert FrameOK(r.cap, r.log[j]);
    var r' := r.(mem := Write(r.mem, a, bs));
    forall i | r.iHp <= i < r.iTp
      ensures Stored(r.cap, r'.mem, r.log[i])
    {
      StoreInFrame(r, j, a, bs, i);
      StoredKept(r.cap, r.mem, r'.mem, r.log[i]);
    }
  }

  /** Adding a frame behind the last one. */
  lemma AppendFrame(r: Ring, f: Frame)
    requires RingInv(r) && FrameOK(r.cap, f)
    requires f.lo == Off(r.log, |r.log|) && Hi(f) <= r.hp + r.cap
    ensures RingInv(r.(log := r.log + [f]))
  {
    AppendLog(r.cap, r.log, f);
    hide LogOK, FrameOK, Stored;
  }

  lemma AppendLog(cap: nat, log: seq<Frame>, f: Frame)
    requires cap > 0 && LogOK(cap, log) && FrameOK(cap, f) && f.lo == Off(log, |log|)
    ensures LogOK(cap, log + [f])
  {
    var log' := log + [f];
    forall i | 0 <= i < |log'|
      ensures log'[i].lo == Off(log', i)
    {
      if i < |log| { assert log[i].lo == Off(log, i); }
    }
  }

  lemma AppendOrd(log: seq<Frame>, f: Frame)
    requires DenseOrds(log) && f.ord == OrdAt(log, |log|)
    ensures DenseOrds(log + [f])
  {
    var log' := log + [f];
    forall i | 0 <= i < |log'|
      ensures log'[i].ord == OrdAt(log', i)
    {
      if i < |log| { assert log[i].ord == OrdAt(log, i); }
    }
  }

  /** Handing back a published frame keeps the ring invariant and pops at most its record. */
  lemma AdvanceHead(r: Ring)
    requires RingInv(r) && r.iHp < r.iTp
    ensures var r' := r.(hp := Hi(r.log[r.iHp]), iHp := r.iHp + 1);
            && RingInv(r')
            && r.hp < r'.hp
            && Queue(r) == (if r.log[r.iHp].Rec? then [MessageOf(r.log[r.iHp])] else []) + Queue(r')
  {
    MessagesHead(r.log, r.iHp, r.iTp);
    assert FrameOK(r.cap, r.log[r.iHp]) && r.log[r.iHp].lo == Off(r.log, r.iHp);
  }

  // ---- What a reader finds at a published frame ----------------------------------------------

  /** With no room for a header before the boundary, the frame is padding up to it. */
  lemma ShortTail(r: Ring, i: nat)
    requires RingInv(r) && i < |r.log|
    requires r.cap - Pos(r.log[i].lo, r.cap) < HEADER
    ensures r.log[i].Pad? && Hi(r.log[i]) == r.log[i].lo + (r.cap - Pos(r.log[i].lo, r.cap))
  {}

  /** Otherwise the wrap flag in the header bytes tells padding from a record. */
  lemma ReadFlags(r: Ring, i: nat)
    requires RingInv(r) && r.iHp <= i < r.iTp
    requires r.cap - Pos(r.log[i].lo, r.cap) >= HEADER
    ensures var f, p := r.log[i], Pos(r.log[i].lo, r.cap);
            && (IsWrap(FlagsField(r.mem, p)) <==> f.Pad?)
            && (f.Pad? ==> Hi(f) == f.lo + (r.cap - p))
  {
    var f, p := r.log[i], Pos(r.log[i].lo, r.cap);
    assert FrameOK(r.cap, f);
    assert Stored(r.cap, r.mem, f);
    if f.Pad? {
      ReadWrap(r.mem, p);
    } else {
      LoadHeader(r.mem, p, |f.payload|, f.typ, 0, f.ord + 1);
    }
  }

  /** The header and payload bytes of a published record give the record back. */
  lemma ReadRecord(r: Ring, i: nat)
    requires RingInv(r) && r.iHp <= i < r.iTp && r.log[i].Rec?
    ensures var f, p := r.log[i], Pos(r.log[i].lo, r.cap);
            && p + HEADER + |f.payload| <= p + Len(f) <= |r.mem|
            && SizeField(r.mem, p) == |f.payload|
            && TypeField(r.mem, p) == f.typ
            && SequenceField(r.mem, p) == (f.ord + 1) % TWO64
            && r.mem[p + HEADER..p + HEADER + |f.payload|] == f.payload
  {
    RecordHeld(r, i);
    hide RingInv, RecordBytes, Pos;
    LoadRecord(r.mem, Pos(r.log[i].lo, r.cap), Request(r.log[i].typ, r.log[i].payload), r.log[i].ord + 1);
  }

  lemma RecordHeld(r: Ring, i: nat)
    requires RingInv(r) && r.iHp <= i < r.iTp && r.log[i].Rec?
    ensures var f, p := r.log[i], Pos(r.log[i].lo, r.cap);
            && RecordBytes(r.mem, p, Request(f.typ, f.payload), f.ord + 1, |f.payload|)
            && ValidRequest(Request(f.typ, f.payload)) && p + RecordSize(|f.payload|) <= |r.mem|
  {
    hide RecordBytes, Pos;
    assert FrameOK(r.cap, r.log[i]) && Stored(r.cap, r.mem, r.log[i]);
  }

  lemma LoadRecord(mem: seq<byte>, p: nat, q: Request, sequence: nat)
    requires RecordBytes(mem, p, q, sequence, |q.payload|) && ValidRequest(q) && p + RecordSize(|q.payload|) <= |mem|
    ensures SizeField(mem, p) == |q.payload| && TypeField(mem, p) == q.typ
    ensures SequenceField(mem, p) == sequence % TWO64
    ensures mem[p + HEADER..p + HEADER + |q.payload|] == q.payload
  {
    LoadHeader(mem, p, |q.payload|, q.typ, 0, sequence);
    assert q.payload[..|q.payload|] == q.payload;
  }

  lemma ReadWrap(mem: seq<byte>, p: nat)
    requires p + HEADER <= |mem|
    requires Holds(mem, p + 6, LE(WRAP_FLAG, 2))
    ensures FlagsField(mem, p) == WRAP_FLAG
  {
    LoadField(mem, p + 6, WRAP_FLAG, 2);
    FieldWidths();
  }

  // ---- Tiling and numbering ------------------------------------------------------------------

  /** Every offset between two frame boundaries lies in exactly one frame between them. */
  lemma {:induction false} FrameAt(cap: nat, log: seq<Frame>, i: nat, j: nat, x: nat) returns (k: nat)
    requires cap > 0 && LogOK(cap, log) && i <= j <= |log|
    requires Off(log, i) <= x < Off(log, j)
    ensures i <= k < j && log[k].lo <= x < Hi(log[k])
    decreases j
  {
    assert i < j;
    assert log[j - 1].lo == Off(log, j - 1);
    if Off(log, j - 1) <= x {
      k := j - 1;
    } else {
      k := FrameAt(cap, log, i, j - 1, x);
    }
  }

  lemma FrameAtUnique(cap: nat, log: seq<Frame>, k: nat, k': nat, x: nat)
    requires cap > 0 && LogOK(cap, log) && k < |log| && k' < |log|
    requires log[k].lo <= x < Hi(log[k]) && log[k'].lo <= x < Hi(log[k'])
    ensures k == k'
  {
    assert log[k].lo == Off(log, k) && log[k'].lo == Off(log, k');
    if k < k' {
      OffMono(cap, log, k + 1, k');
    } else if k' < k {
      OffMono(cap, log, k' + 1, k);
    }
  }

  /** The `k`-th record from the start carries number `k + 1`. */
  lemma {:induction false} MessagesNumbered(log: seq<Frame>, j: nat)
    requires DenseOrds(log) && j <= |log|
    ensures |Messages(log, 0, j)| == OrdAt(log, j)
    ensures forall k :: 0 <= k < |Messages(log, 0, j)| ==> Messages(log, 0, j)[k].sequence == (k + 1) % TWO64
    decreases j
  {
    if j > 0 {
      MessagesNumbered(log, j - 1);
      assert log[j - 1].ord == OrdAt(log, j - 1);
    }
  }
}
