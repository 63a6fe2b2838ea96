/** The byte ring together with the history of the frames that were laid out in it.

    `log` lists every frame ever reserved, in ring order, at its unbounded offset; `iHp` and
    `iTp` are the positions in that history which `head_publish` and `tail_publish` stand for.
    The history is never read by the modelled code. */
module FrameLog {
  import opened Arithmetic
  import opened Bytes
  import opened RingLayout

  /** Padding up to the capacity boundary, or a record. `ord` counts the records before it. */
  datatype Frame =
    | Pad(lo: nat, len: nat, ord: nat, owner: nat)
    | Rec(lo: nat, typ: nat, payload: seq<byte>, ord: nat, owner: nat)

  datatype Ring = Ring(
    cap: nat,
    hr: nat, hp: nat, tr: nat, tp: nat, sq: nat,
    mem: seq<byte>,
    log: seq<Frame>, iHp: nat, iTp: nat)

  function Len(f: Frame): (n: nat) {
    match f
    case Pad(_, len, _, _) => len
    case Rec(_, _, payload, _, _) => RecordSize(|payload|)
  }

  function Hi(f: Frame): nat { f.lo + Len(f) }

  function NextOrd(f: Frame): nat { if f.Rec? then f.ord + 1 else f.ord }

  /** Offset at which frame `i` starts, or would start. */
  function Off(log: seq<Frame>, i: nat): nat
    requires i <= |log|
  {
    if i == 0 then 0 else Hi(log[i - 1])
  }

  /** Number of records among the first `i` frames. */
  function OrdAt(log: seq<Frame>, i: nat): nat
    requires i <= |log|
  {
    if i == 0 then 0 else NextOrd(log[i - 1])
  }

  /** A frame never crosses the capacity boundary; padding fills up to it and never starts at 0. */
  predicate FrameOK(cap: nat, f: Frame)
    requires cap > 0
  {
    && 0 < Len(f)
    && Pos(f.lo, cap) + Len(f) <= cap
    && (f.Pad? ==> Pos(f.lo, cap) != 0 && f.len == cap - Pos(f.lo, cap))
    && (f.Rec? ==> ValidRequest(Request(f.typ, f.payload)))
  }

  /** The frames tile the line from 0 on. */
  predicate LogOK(cap: nat, log: seq<Frame>)
    requires cap > 0
  {
    && (forall i :: 0 <= i < |log| ==> FrameOK(cap, log[i]))
    && (forall i {:trigger Off(log, i)} :: 0 <= i < |log| ==> log[i].lo == Off(log, i))
  }

  /** Records are numbered in ring order without gaps. */
  predicate DenseOrds(log: seq<Frame>) {
    forall i {:trigger OrdAt(log, i)} :: 0 <= i < |log| ==> log[i].ord == OrdAt(log, i)
  }

  /** The bytes of a finished frame. */
  predicate Stored(cap: nat, mem: seq<byte>, f: Frame)
    requires cap > 0
  {
    match f
    case Pad(lo, len, _, _) => len >= HEADER ==> Holds(mem, Pos(lo, cap) + 6, LE(WRAP_FLAG, 2))
    case Rec(lo, typ, payload, ord, _) =>
      RecordBytes(mem, Pos(lo, cap), Request(typ, payload), ord + 1, |payload|)
  }

  predicate Committed(r: Ring)
    requires r.cap > 0 && r.iTp <= |r.log|
  {
    forall i :: r.iHp <= i < r.iTp ==> Stored(r.cap, r.mem, r.log[i])
  }

  /** What holds of the shared memory in every reachable state, whoever writes and reads. */
  predicate RingInv(r: Ring) {
    match r
    case Ring(cap, _, hp, _, tp, _, mem, log, iHp, iTp) =>
      && 0 < cap == |mem|
      && LogOK(cap, log)
      && iHp <= iTp <= |log|
      && hp == Off(log, iHp)
      && tp == Off(log, iTp)
      && Off(log, |log|) <= hp + cap
      && Committed(r)
  }

  /** A zeroed mapping. */
  predicate RingInit(r: Ring) {
    && 0 < r.cap == |r.mem|
    && r.hr == r.hp == r.tr == r.tp == r.sq == 0
    && r.log == [] && r.iHp == r.iTp == 0
    && forall i :: 0 <= i < r.cap ==> r.mem[i] == 0
  }

  // ---- The abstract queue --------------------------------------------------------------

  function MessageOf(f: Frame): Message
    requires f.Rec?
  {
    Message(f.typ, f.payload, (f.ord + 1) % TWO64)
  }

  /** The records among frames `i..j`. */
  function Messages(log: seq<Frame>, i: nat, j: nat): seq<Message>
    requires j <= |log|
    decreases j
  {
    if j <= i then []
    else Messages(log, i, j - 1) + (if log[j - 1].Rec? then [MessageOf(log[j - 1])] else [])
  }

  /** Published and not yet handed back. */
  function Queue(r: Ring): seq<Message>
    requires r.iTp <= |r.log|
  {
    Messages(r.log, r.iHp, r.iTp)
  }

  /** Frame `i`, published in `r`, has the same place and the same bytes in `r'`. */
  predicate FrameSame(r: Ring, r': Ring, i: nat) {
    && 0 < r.cap == r'.cap && i < r.iTp <= r'.iTp && i < |r.log| && i < |r'.log| && r'.log[i] == r.log[i]
    && SameOn(r.mem, r'.mem, Pos(r.log[i].lo, r.cap), Pos(r.log[i].lo, r.cap) + Len(r.log[i]))
  }

  /** `approx_size` from a load of `head_publish` and a later load of `tail_publish`. */
  function ApproxSize(cap: nat, head: nat, tail: nat): nat {
    var used := Diff64(tail, head);
    if used > cap then cap else used
  }
}
