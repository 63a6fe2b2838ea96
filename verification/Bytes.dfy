/** Bytes of the mapped region: little-endian fields, stores and what a store leaves alone. */
module Bytes {
  import opened Arithmetic

  newtype byte = x: int | 0 <= x < 256

  function Pow256(k: nat): (r: nat)
    ensures r > 0
  {
    if k == 0 then 1 else 256 * Pow256(k - 1)
  }

  /** Byte `i` of `x`, counted from the least significant one. */
  function Digit(x: nat, i: nat): byte {
    if i == 0 then (x % 256) as byte else Digit(x / 256, i - 1)
  }

  /** The `k` low bytes of `x`, least significant first (a `k`-byte unsigned field). */
  function LE(x: nat, k: nat): (bs: seq<byte>)
    ensures |bs| == k
  {
    seq(k, i requires 0 <= i => Digit(x, i))
  }

  function FromLE(bs: seq<byte>): nat {
    if |bs| == 0 then 0 else bs[0] as nat + 256 * FromLE(bs[1..])
  }

  lemma LowByteSplit(x: nat, m: nat)
    requires m > 0
    ensures x % (256 * m) == x % 256 + 256 * ((x / 256) % m)
  {
    var h := x / 256;
    assert h == m * (h / m) + h % m;
    assert 256 * (m * (h / m)) == (256 * m) * (h / m);
    DivModUnique(x, 256 * m, h / m, x % 256 + 256 * (h % m));
  }

  /** Loading a stored field gives the value back, reduced to the width of the field. */
  lemma {:induction false} FieldRoundTrip(x: nat, k: nat)
    ensures FromLE(LE(x, k)) == x % Pow256(k)
  {
    if k > 0 {
      FieldRoundTrip(x / 256, k - 1);
      assert LE(x, k)[1..] == LE(x / 256, k - 1);
      LowByteSplit(x, Pow256(k - 1));
    }
  }

  lemma FieldWidths()
    ensures Pow256(2) == 0x1_0000
    ensures Pow256(4) == 0x1_0000_0000
    ensures Pow256(8) == 0x1_0000_0000_0000_0000
  {}

  /** `m` after storing `bs` at `p`. */
  function Write(m: seq<byte>, p: nat, bs: seq<byte>): (m': seq<byte>)
    requires p + |bs| <= |m|
    ensures |m'| == |m|
    ensures forall i :: 0 <= i < |m| ==> m'[i] == if p <= i < p + |bs| then bs[i - p] else m[i]
  {
    m[..p] + bs + m[p + |bs|..]
  }

  /** `m` holds `bs` at `p`. */
  predicate Holds(m: seq<byte>, p: nat, bs: seq<byte>) {
    p + |bs| <= |m| && m[p..p + |bs|] == bs
  }

  /** `m` and `m'` agree on `[lo, hi)`. */
  predicate SameOn(m: seq<byte>, m': seq<byte>, lo: nat, hi: nat) {
    |m| == |m'| && forall i :: lo <= i < hi && i < |m| ==> m[i] == m'[i]
  }

  lemma HoldsWritten(m: seq<byte>, p: nat, bs: seq<byte>)
    requires p + |bs| <= |m|
    ensures Holds(Write(m, p, bs), p, bs)
  {}

  lemma HoldsKept(m: seq<byte>, m': seq<byte>, lo: nat, hi: nat, p: nat, bs: seq<byte>)
    requires SameOn(m, m', lo, hi)
    requires lo <= p && p + |bs| <= hi
    requires Holds(m, p, bs)
    ensures Holds(m', p, bs)
  {}

  lemma WriteElsewhere(m: seq<byte>, p: nat, bs: seq<byte>, lo: nat, hi: nat)
    requires p + |bs| <= |m|
    requires p + |bs| <= lo || hi <= p
    ensures SameOn(m, Write(m, p, bs), lo, hi)
  {}

  /** A copy that has reached byte `k` extends by one byte. */
  lemma HoldsExtend(m: seq<byte>, p: nat, bs: seq<byte>, k: nat)
    requires k < |bs| && p + |bs| <= |m|
    requires Holds(m, p, bs[..k])
    ensures Holds(Write(m, p + k, [bs[k]]), p, bs[..k + 1])
  {}

  lemma LoadField(m: seq<byte>, p: nat, x: nat, k: nat)
    requires Holds(m, p, LE(x, k))
    ensures p + k <= |m| && FromLE(m[p..p + k]) == x % Pow256(k)
  {
    FieldRoundTrip(x, k);
  }
}
