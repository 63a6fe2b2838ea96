/** Record layout shared by every byte ring: sizes, header fields, messages. */
module RingLayout {
  import opened Arithmetic
  import opened Bytes

  /** `sizeof(RecordHeader)`: size (4), type (2), flags (2), sequence (8). */
  const HEADER: nat := 16
  const WRAP_FLAG: nat := 1

  /** A payload and its type, as handed to `try_push`. */
  datatype Request = Request(typ: nat, payload: seq<byte>)

  /** What a consumer gets. */
  datatype Message = Message(typ: nat, payload: seq<byte>, sequence: nat)

  /** The field widths of the record header bound every request. */
  predicate ValidRequest(q: Request) {
    q.typ < 0x1_0000 && |q.payload| < 0x1_0000_0000
  }

  /** `align_up` on 64-bit words: `(value + alignment - 1) & ~(alignment - 1)`. */
  function AlignUp(value: nat, alignment: nat): nat
    requires 0 < alignment <= TWO64 && value + alignment - 1 < TWO64
  {
    BitAnd(value + alignment - 1, TWO64 - alignment)
  }

  /** For a power of two, `align_up` yields the least multiple that is not below the value. */
  lemma AlignUpLeastMultiple(value: nat, k: nat, alignment: nat)
    requires k <= 64 && alignment == Pow2(k) && value + alignment - 1 < TWO64
    ensures alignment <= TWO64 && AlignUp(value, alignment) % alignment == 0
    ensures value <= AlignUp(value, alignment) < value + alignment
  {
    var x := value + alignment - 1;
    WordSize();
    ClearLowBits(x, k, 64);
    FloorMultiple(x, alignment);
  }

  lemma WordSize()
    ensures Pow2(64) == TWO64
  {
    assert Pow2(8) == 256;
    Pow2Sum(8, 8);
    assert Pow2(16) == 0x1_0000;
    Pow2Sum(16, 16);
    assert Pow2(32) == 0x1_0000_0000;
    Pow2Sum(32, 32);
  }

  lemma {:induction false} Pow2Sum(a: nat, b: nat)
    ensures Pow2(a + b) == Pow2(a) * Pow2(b)
  {
    if b > 0 {
      Pow2Sum(a, b - 1);
      assert Pow2(a + b) == 2 * (Pow2(a) * Pow2(b - 1));
    }
  }

  /** Bytes taken by a record with an `n`-byte payload: the header and whole 8-byte words. */
  function RecordSize(n: nat): (r: nat)
    ensures HEADER + n <= r < HEADER + n + 8
  {
    if n == 0 then HEADER else 8 + RecordSize(if n <= 8 then 0 else n - 8)
  }

  lemma {:induction false} RecordSizeMultiple(n: nat)
    ensures RecordSize(n) % 8 == 0
  {
    if n > 0 { RecordSizeMultiple(if n <= 8 then 0 else n - 8); }
  }

  /** `RecordSize` is `align_up(sizeof(RecordHeader) + size, kAlignment)`. */
  lemma RecordSizeIsAligned(n: nat)
    requires n < 0x1_0000_0000
    ensures RecordSize(n) == AlignUp(HEADER + n, 8)
  {
    assert Pow2(3) == 8;
    AlignUpLeastMultiple(HEADER + n, 3, 8);
    RecordSizeMultiple(n);
    hide *;
    SameMultiple(RecordSize(n), AlignUp(HEADER + n, 8), HEADER + n);
  }

  lemma SameMultiple(a: nat, b: nat, x: nat)
    requires a % 8 == 0 && b % 8 == 0 && x <= a < x + 8 && x <= b < x + 8
    ensures a == b
  {
    assert a == 8 * (a / 8) && b == 8 * (b / 8);
  }

  // ---- Header fields -----------------------------------------------------------------

  /** Address of the `j`-th field of a header at `p`, in the order the writers store them. */
  function FieldAt(p: nat, j: nat): nat
    requires j < 4
  {
    p + (if j == 0 then 0 else if j == 1 then 4 else if j == 2 then 6 else 8)
  }

  function FieldBytes(size: nat, typ: nat, flags: nat, sequence: nat, j: nat): (bs: seq<byte>)
    requires j < 4
    ensures |bs| == if j == 0 then 4 else if j == 3 then 8 else 2
  {
    if j == 0 then LE(size, 4) else if j == 1 then LE(typ, 2)
    else if j == 2 then LE(flags, 2) else LE(sequence, 8)
  }

  /** The first `j` fields of the header at `p` have been stored. */
  predicate HeaderFields(m: seq<byte>, p: nat, size: nat, typ: nat, flags: nat, sequence: nat, j: nat)
    requires j <= 4
  {
    forall i :: 0 <= i < j ==> Holds(m, FieldAt(p, i), FieldBytes(size, typ, flags, sequence, i))
  }

  lemma HeaderFieldStored(m: seq<byte>, p: nat, size: nat, typ: nat, flags: nat, sequence: nat, j: nat)
    requires j < 4 && p + HEADER <= |m|
    requires HeaderFields(m, p, size, typ, flags, sequence, j)
    ensures HeaderFields(Write(m, FieldAt(p, j), FieldBytes(size, typ, flags, sequence, j)),
                         p, size, typ, flags, sequence, j + 1)
  {}

  lemma HeaderFieldsKept(m: seq<byte>, m': seq<byte>, p: nat, size: nat, typ: nat, flags: nat, sequence: nat, j: nat)
    requires j <= 4
    requires HeaderFields(m, p, size, typ, flags, sequence, j)
    requires SameOn(m, m', p, p + HEADER)
    ensures HeaderFields(m', p, size, typ, flags, sequence, j)
  {}

  /** A record at `p`: its header, numbered `sequence`, and the first `k` payload bytes. */
  predicate RecordBytes(m: seq<byte>, p: nat, q: Request, sequence: nat, k: nat)
    requires k <= |q.payload|
  {
    HeaderFields(m, p, |q.payload|, q.typ, 0, sequence, 4) && Holds(m, p + HEADER, q.payload[..k])
  }

  lemma RecordBytesKept(m: seq<byte>, m': seq<byte>, p: nat, q: Request, sequence: nat, k: nat)
    requires k <= |q.payload| && RecordBytes(m, p, q, sequence, k)
    requires SameOn(m, m', p, p + RecordSize(|q.payload|))
    ensures RecordBytes(m', p, q, sequence, k)
  {}

  lemma HeaderComplete(m: seq<byte>, p: nat, q: Request, sequence: nat)
    requires p + HEADER <= |m| && HeaderFields(m, p, |q.payload|, q.typ, 0, sequence, 4)
    ensures RecordBytes(m, p, q, sequence, 0)
  {}

  /** Copying the next payload byte. */
  lemma PayloadByteStored(m: seq<byte>, p: nat, q: Request, sequence: nat, k: nat)
    requires k < |q.payload| && p + RecordSize(|q.payload|) <= |m|
    requires RecordBytes(m, p, q, sequence, k)
    ensures RecordBytes(Write(m, p + HEADER + k, [q.payload[k]]), p, q, sequence, k + 1)
  {
    var m' := Write(m, p + HEADER + k, [q.payload[k]]);
    WriteElsewhere(m, p + HEADER + k, [q.payload[k]], p, p + HEADER);
    HeaderFieldsKept(m, m', p, |q.payload|, q.typ, 0, sequence, 4);
    HoldsExtend(m, p + HEADER, q.payload, k);
  }

  lemma HeaderRenumbered(m: seq<byte>, p: nat, size: nat, typ: nat, flags: nat, sequence: nat, sequence': nat)
    requires HeaderFields(m, p, size, typ, flags, sequence, 4)
    ensures HeaderFields(m, p, size, typ, flags, sequence', 3)
  {}

  /** Storing the sequence number into a finished record. */
  lemma SequenceStored(m: seq<byte>, p: nat, q: Request, sequence: nat, sequence': nat)
    requires p + RecordSize(|q.payload|) <= |m|
    requires RecordBytes(m, p, q, sequence, |q.payload|)
    ensures RecordBytes(Write(m, p + 8, LE(sequence', 8)), p, q, sequence', |q.payload|)
  {}

  // Field loads.
  function SizeField(m: seq<byte>, p: nat): nat requires p + HEADER <= |m| { FromLE(m[p..p + 4]) }
  function TypeField(m: seq<byte>, p: nat): nat requires p + HEADER <= |m| { FromLE(m[p + 4..p + 6]) }
  function FlagsField(m: seq<byte>, p: nat): nat requires p + HEADER <= |m| { FromLE(m[p + 6..p + 8]) }
  function SequenceField(m: seq<byte>, p: nat): nat requires p + HEADER <= |m| { FromLE(m[p + 8..p + 16]) }

  /** `(flags & kWrapFlag) != 0`. */
  predicate IsWrap(flags: nat) { flags % 2 == 1 }

  /** The readers test the wrap bit and ignore the others. */
  lemma WrapIsBit(flags: nat)
    ensures IsWrap(flags) <==> BitAnd(flags, WRAP_FLAG) != 0
  {
    assert Pow2(1) == 2;
    MaskIsMod(flags, 1);
  }

  /** Loading a stored header gives back its fields. */
  lemma LoadHeader(m: seq<byte>, p: nat, size: nat, typ: nat, flags: nat, sequence: nat)
    requires p + HEADER <= |m|
    requires HeaderFields(m, p, size, typ, flags, sequence, 4)
    requires size < 0x1_0000_0000 && typ < 0x1_0000 && flags < 0x1_0000
    ensures SizeField(m, p) == size && TypeField(m, p) == typ && FlagsField(m, p) == flags
    ensures SequenceField(m, p) == sequence % TWO64
  {
    FieldWidths();
    hide Holds, LE, FromLE, Pow256;
    assert Holds(m, FieldAt(p, 0), FieldBytes(size, typ, flags, sequence, 0));
    assert Holds(m, FieldAt(p, 1), FieldBytes(size, typ, flags, sequence, 1));
    assert Holds(m, FieldAt(p, 2), FieldBytes(size, typ, flags, sequence, 2));
    assert Holds(m, FieldAt(p, 3), FieldBytes(size, typ, flags, sequence, 3));
    LoadField(m, p, size, 4);
    LoadField(m, p + 4, typ, 2);
    LoadField(m, p + 6, flags, 2);
    LoadField(m, p + 8, sequence, 8);
  }
}
