/** Integer and bit arithmetic of C `long` and `int` values, on unbounded integers.

    Dafny's `/` and `%` with a positive divisor are floor division and the
    non-negative remainder, which is exactly what two's-complement `v >> k` and
    `v & (2^k - 1)` compute, also for negative `v`.
 */
module Bits {

  const TWO_31: int := 0x8000_0000
  const TWO_32: int := 0x1_0000_0000

  /** 2 to the power k. */
  function Pow2(k: nat): (p: nat)
    ensures p >= 1
    ensures k >= 1 ==> p % 2 == 0
  {
    if k == 0 then 1 else 2 * Pow2(k - 1)
  }

  /** `v & (1 << k)` is non-zero: bit k of the two's-complement form of v. */
  predicate Bit(v: int, k: nat)
  {
    (v / Pow2(k)) % 2 == 1
  }

  /** The pair (`v >> 8`, `v & 0xFF`): an arithmetic shift and the low byte. */
  function SplitByte(v: int): (r: (int, int))
    ensures 0 <= r.1 < 256
    ensures r.0 * 256 + r.1 == v
  {
    (v / 256, v % 256)
  }

  /** `v >> 8`. */
  function ShiftRight8(v: int): int
  {
    SplitByte(v).0
  }

  /** `v & 0xFF`. */
  function LowByte(v: int): int
  {
    SplitByte(v).1
  }

  /** The value a C compiler stores when a wider integer is assigned to a
      32-bit `int`: the unique 32-bit value congruent to v modulo 2^32. */
  function Wrap32(v: int): (r: int)
    ensures -TWO_31 <= r < TWO_31
    ensures (v - r) % TWO_32 == 0
    ensures -TWO_31 <= v < TWO_31 ==> r == v
  {
    (v + TWO_31) % TWO_32 - TWO_31
  }

  /** `abs`, taken mathematically (C's abs(INT_MIN) is undefined). */
  function Abs(v: int): (r: nat)
    ensures r == v || r == -v
  {
    if v < 0 then -v else v
  }

  /** The smaller of the two; `a > b ? b : a`. */
  function Min(a: int, b: int): (r: int)
    ensures r <= a && r <= b
    ensures r == a || r == b
  {
    if a > b then b else a
  }

  /** Bit k of `v >> 8` is bit k + 8 of v. */
  lemma {:induction false} BitOfShift(v: int, k: nat)
    ensures Bit(ShiftRight8(v), k) == Bit(v, k + 8)
  {
    Pow2Add8(k);
    DivDiv(v, 256, Pow2(k));
  }

  lemma {:induction false} Pow2Add8(k: nat)
    ensures Pow2(k + 8) == 256 * Pow2(k)
  {
    if k == 0 {
      assert Pow2(8) == 256 by {
        assert Pow2(1) == 2;
        assert Pow2(2) == 4;
        assert Pow2(3) == 8;
        assert Pow2(4) == 16;
        assert Pow2(5) == 32;
        assert Pow2(6) == 64;
        assert Pow2(7) == 128;
      }
    } else {
      Pow2Add8(k - 1);
    }
  }

  lemma DivDiv(v: int, a: int, b: int)
    requires a > 0 && b > 0
    ensures (v / a) / b == v / (a * b)
  {
    var q, r := v / a, v % a;
    var q2, r2 := q / b, q % b;
    MulExpand(a, b, q2, r2);
    MulBound(a, b, r2);
    assert v == (a * b) * q2 + (a * r2 + r);
    DivUnique(v, a * b, q2, a * r2 + r);
  }

  lemma MulExpand(a: int, b: int, q: int, r: int)
    ensures a * (b * q + r) == (a * b) * q + a * r
  {
  }

  lemma MulBound(a: int, b: int, r: int)
    requires a > 0 && 0 <= r < b
    ensures 0 <= a * r && a * r + a <= a * b
  {
    MulMonotone(a, r + 1, b);
    MulMonotone(a, 0, r);
  }

  lemma MulMonotone(d: int, a: int, b: int)
    requires d > 0 && a <= b
    ensures d * a <= d * b
  {
  }

  lemma DivUnique(v: int, d: int, q: int, r: int)
    requires d > 0 && 0 <= r < d && v == d * q + r
    ensures v / d == q
  {
    var q0 := v / d;
    assert v == d * q0 + v % d;
    if q0 < q {
      MulMonotone(d, q0, q - 1);
    } else if q0 > q {
      MulMonotone(d, q, q0 - 1);
    }
  }
}
