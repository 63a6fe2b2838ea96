/** Integer facts about ring offsets (positions modulo the capacity) and about the
    bit masks used by `align_up` and by the fixed-slot queue. */
module Arithmetic {

  const TWO64: nat := 0x1_0000_0000_0000_0000
  const TWO32: nat := 0x1_0000_0000

  /** `t - h` on 64-bit counters. Both counters stand for values below 2^64, so the
      difference wraps only when the subtrahend is the larger one. */
  function Diff64(t: nat, h: nat): nat {
    if h <= t then t - h else (t - h) % TWO64
  }

  lemma QuotientUnique(d: int, q: int, r: int, q': int, r': int)
    requires 0 <= r < d && 0 <= r' < d
    requires d * q + r == d * q' + r'
    ensures q == q' && r == r'
  {
    var k := q' - q;
    assert d * k == r - r';
    assert k >= 1 ==> d * k >= d;
    assert k <= -1 ==> d * k <= -d;
  }

  lemma DivModUnique(x: int, d: int, q: int, r: int)
    requires d > 0 && x == d * q + r && 0 <= r < d
    ensures x / d == q && x % d == r
  {
    QuotientUnique(d, q, r, x / d, x % d);
  }

  lemma FloorMultiple(x: nat, d: nat)
    requires d > 0
    ensures (x - x % d) % d == 0 && x < x - x % d + d
  {
    DivModUnique(x - x % d, d, x / d, 0);
  }

  /** Position of the unbounded offset `o` in a ring of `cap` bytes: `o % cap`. */
  function Pos(o: nat, cap: nat): (p: nat)
    requires cap > 0
    ensures p < cap
    decreases o
  {
    if o < cap then o else Pos(o - cap, cap)
  }

  lemma {:induction false} PosIsMod(o: nat, cap: nat)
    requires cap > 0
    ensures Pos(o, cap) == o % cap
    decreases o
  {
    if o < cap {
      DivModUnique(o, cap, 0, o);
    } else {
      PosIsMod(o - cap, cap);
      DivModUnique(o, cap, (o - cap) / cap + 1, (o - cap) % cap);
    }
  }

  /** Moving forward without reaching the capacity boundary. */
  lemma {:induction false} PosShift(o: nat, d: nat, cap: nat)
    requires cap > 0 && Pos(o, cap) + d < cap
    ensures Pos(o + d, cap) == Pos(o, cap) + d
    decreases o
  {
    if o >= cap { PosShift(o - cap, d, cap); }
  }

  /** Moving forward up to or across the capacity boundary. */
  lemma {:induction false} PosWrap(o: nat, d: nat, cap: nat)
    requires cap > 0 && cap <= Pos(o, cap) + d < 2 * cap
    ensures Pos(o + d, cap) == Pos(o, cap) + d - cap
    decreases o
  {
    if o >= cap { PosWrap(o - cap, d, cap); }
  }

  /** Two intervals that are disjoint on the unbounded line, that both lie in one window of
      length `cap` and that do not cross the boundary occupy disjoint physical ranges. */
  lemma PhysicalDisjoint(a: nat, m: nat, b: nat, n: nat, cap: nat)
    requires cap > 0
    requires a + m <= b && b + n <= a + cap
    requires 0 < m && 0 < n
    requires Pos(a, cap) + m <= cap && Pos(b, cap) + n <= cap
    ensures Pos(a, cap) + m <= Pos(b, cap) || Pos(b, cap) + n <= Pos(a, cap)
  {
    if Pos(a, cap) + (b - a) < cap {
      PosShift(a, b - a, cap);
    } else {
      PosWrap(a, b - a, cap);
    }
  }

  // ---- Bit masks -------------------------------------------------------------------

  function Pow2(k: nat): (r: nat)
    ensures r > 0
  {
    if k == 0 then 1 else 2 * Pow2(k - 1)
  }

  /** Bitwise conjunction of two unsigned numbers. */
  function BitAnd(x: nat, y: nat): nat {
    if x == 0 || y == 0 then 0
    else 2 * BitAnd(x / 2, y / 2) + (if x % 2 == 1 && y % 2 == 1 then 1 else 0)
  }

  lemma {:induction false} PosDouble(x: nat, m: nat)
    requires m > 0
    ensures Pos(x, 2 * m) == 2 * Pos(x / 2, m) + x % 2
    decreases x
  {
    if x >= 2 * m {
      PosDouble(x - 2 * m, m);
      assert (x - 2 * m) / 2 == x / 2 - m && (x - 2 * m) % 2 == x % 2;
    }
  }

  lemma MaskStep(x: nat, y: nat)
    requires x > 0
    ensures BitAnd(x, 2 * y + 1) == 2 * BitAnd(x / 2, y) + x % 2
    ensures BitAnd(x, 2 * y) == 2 * BitAnd(x / 2, y)
  {
    assert (2 * y + 1) / 2 == y && (2 * y) / 2 == y;
  }

  lemma {:induction false} MaskIsPos(x: nat, k: nat)
    ensures BitAnd(x, Pow2(k) - 1) == Pos(x, Pow2(k))
    decreases k
  {
    if k == 0 {
      PosIsMod(x, 1);
    } else if x > 0 {
      var m := Pow2(k - 1);
      assert Pow2(k) == 2 * m && Pow2(k) - 1 == 2 * (m - 1) + 1;
      hide BitAnd, Pow2, Pos;
      PosDouble(x, m);
      MaskIsPos(x / 2, k - 1);
      MaskStep(x, m - 1);
    }
  }

  /** Masking with `2^k - 1` is reduction modulo `2^k`. */
  lemma MaskIsMod(x: nat, k: nat)
    ensures BitAnd(x, Pow2(k) - 1) == x % Pow2(k)
  {
    MaskIsPos(x, k);
    PosIsMod(x, Pow2(k));
  }

  lemma {:induction false} ClearToPos(x: nat, k: nat, n: nat)
    requires k <= n && x < Pow2(n)
    ensures Pow2(k) <= Pow2(n)
    ensures BitAnd(x, Pow2(n) - Pow2(k)) == x - Pos(x, Pow2(k))
    decreases k
  {
    if k == 0 {
      MaskIsPos(x, n);
      PosIsMod(x, 1);
    } else {
      var a, b := Pow2(n - 1), Pow2(k - 1);
      assert Pow2(n) == 2 * a && Pow2(k) == 2 * b;
      ClearToPos(x / 2, k - 1, n - 1);
      if x > 0 {
        hide BitAnd, Pow2, Pos;
        MaskStep(x, a - b);
        PosDouble(x, b);
      }
    }
  }

  /** A 64-bit style complement mask clears the low `k` bits. */
  lemma ClearLowBits(x: nat, k: nat, n: nat)
    requires k <= n && x < Pow2(n)
    ensures Pow2(k) <= Pow2(n)
    ensures BitAnd(x, Pow2(n) - Pow2(k)) == x - x % Pow2(k)
  {
    ClearToPos(x, k, n);
    PosIsMod(x, Pow2(k));
  }

  ghost predicate IsPow2(c: nat) {
    exists k: nat :: c == Pow2(k)
  }

  /** The compile-time test `c & (c - 1) == 0` accepts exactly the powers of two. */
  lemma {:induction false} PowerOfTwoTest(c: nat)
    requires c > 0
    ensures BitAnd(c, c - 1) == 0 <==> IsPow2(c)
  {
    if c == 1 {
      assert c == Pow2(0);
    } else if c % 2 == 1 {
      assert BitAnd(c / 2, (c - 1) / 2) > 0 by { SelfAnd(c / 2); }
      forall k: nat ensures c != Pow2(k) {}
    } else {
      PowerOfTwoTest(c / 2);
      assert BitAnd(c, c - 1) == 2 * BitAnd(c / 2, c / 2 - 1) by {
        MaskStep(c, c / 2 - 1);
        assert c - 1 == 2 * (c / 2 - 1) + 1;
      }
      assert IsPow2(c / 2) <==> IsPow2(c) by {
        if k: nat :| c / 2 == Pow2(k) { assert c == Pow2(k + 1); }
        if k: nat :| c == Pow2(k) { assert c / 2 == Pow2(k - 1); }
      }
    }
  }

  lemma {:induction false} SelfAnd(x: nat)
    ensures BitAnd(x, x) == x
  {
    if x > 0 { SelfAnd(x / 2); }
  }
}
