/** Two's complement words as the C code computes with them: `/` and `%` below round towards minus infinity
for the positive divisors used here, which is what an arithmetic right shift and a mask do. */
module WordArithmetic {
  type Word = w: int | 0 <= w < 0x1_0000

  function Pow2(n: nat): (r: nat)
    ensures r > 0
  {
    if n == 0 then 1 else 2 * Pow2(n - 1)
  }

  function Signed16(w: Word): int { if w < 0x8000 then w else w - 0x1_0000 }

  predicate Fits16(x: int) { -0x8000 <= x < 0x8000 }

  predicate Fits32(x: int) { -0x8000_0000 <= x < 0x8000_0000 }

  /** Conversion to a 32-bit signed integer. */
  function Wrap32(x: int): (r: int)
    ensures Fits32(r)
  {
    (x + 0x8000_0000) % 0x1_0000_0000 - 0x8000_0000
  }

  function Unsigned32(x: int): nat { x % 0x1_0000_0000 }

  /** Arithmetic right shift. */
  function Asr(x: int, n: nat): int { x / Pow2(n) }

  /** Logical right shift of the 32-bit pattern. */
  function Lsr(x: int, n: nat): int { Unsigned32(x) / Pow2(n) }

  /** `x` with every bit from `k` upwards set. */
  function OrHigh(x: int, k: nat): int { x % Pow2(k) - Pow2(k) }

  function Abs(x: int): nat { if x < 0 then -x else x }

  function Quotient(x: nat, m: nat): nat
    requires m > 0
  {
    x / m
  }

  function Remainder(x: nat, m: nat): nat
    requires m > 0
  {
    x % m
  }

  /** Division as C does it, towards zero. */
  function TruncDiv(a: int, b: int): int
    requires b != 0
  {
    var q: int := Quotient(Abs(a), Abs(b));
    if (a < 0) == (b < 0) then q else -q
  }

  /** The remainder C pairs with it: it has the dividend's sign. */
  function TruncRem(a: int, b: int): int
    requires b != 0
  {
    var r: int := Remainder(Abs(a), Abs(b));
    if a < 0 then -r else r
  }

  lemma TruncFacts(a: int, b: int)
    requires b != 0
    ensures a == TruncDiv(a, b) * b + TruncRem(a, b)
    ensures Abs(TruncRem(a, b)) < Abs(b) && (a >= 0 ==> TruncRem(a, b) >= 0) && (a <= 0 ==> TruncRem(a, b) <= 0)
  {
    hide Quotient, Remainder;
    var q, m := Quotient(Abs(a), Abs(b)), Abs(b);
    QuotientParts(Abs(a), m);
    MulNegate(q, m);
  }

  lemma TruncRemBound(a: int, b: int)
    requires b != 0
    ensures Abs(TruncRem(a, b)) < Abs(b)
  {
    TruncFacts(a, b);
  }

  lemma QuotientParts(x: nat, m: nat)
    requires m > 0
    ensures x == Quotient(x, m) * m + Remainder(x, m) && Remainder(x, m) < m
  {
    DivModParts(x, m);
  }

  lemma UniqueParts(m: int, q: int, r: int, q2: int, r2: int)
    requires m > 0 && q * m + r == q2 * m + r2 && 0 <= r < m && 0 <= r2 < m
    ensures q == q2 && r == r2
  {
    MulAdd(q2, q - q2, m);
    if q > q2 { MulMonotone(1, q - q2, m); }
    if q < q2 { MulMonotone(q - q2, -1, m); }
  }

  lemma DivModParts(x: int, m: int)
    requires m > 0
    ensures x == (x / m) * m + x % m && 0 <= x % m < m
  {
  }

  /** A quotient and a remainder in range are the quotient and the remainder. */
  lemma DivModUnique(x: int, m: int, q: int, r: int)
    requires m > 0 && x == q * m + r && 0 <= r < m
    ensures x / m == q && x % m == r
  {
    DivModParts(x, m);
    UniqueParts(m, q, r, x / m, x % m);
  }

  lemma AbsMul(q: int, b: int)
    ensures Abs(q * b) == Abs(q) * Abs(b)
  {
    MulNegate(q, b);
    MulNonNegative(Abs(q), Abs(b));
  }

  lemma SignMul(q: int, b: int)
    requires q != 0 && b != 0
    ensures q * b != 0 && ((q * b < 0) <==> ((q < 0) != (b < 0)))
  {
    MulNegate(q, b);
    MulPositive(Abs(q), Abs(b));
  }

  lemma MulPositive(x: int, y: int)
    requires x > 0 && y > 0
    ensures x * y > 0
  {
  }

  lemma MulAssoc(x: int, y: int, z: int)
    ensures (x * y) * z == x * (y * z)
  {
  }

  lemma MulAdd(x: int, y: int, z: int)
    ensures (x + y) * z == x * z + y * z
  {
  }

  lemma MulNonNegative(x: int, y: int)
    requires x >= 0 && y >= 0
    ensures x * y >= 0
  {
  }

  lemma MulMonotone(x: int, y: int, z: int)
    requires x <= y && z >= 0
    ensures x * z <= y * z
  {
    MulNonNegative(y - x, z);
    MulAdd(y - x, x, z);
  }

  lemma MulNegate(x: int, y: int)
    ensures (-x) * y == -(x * y) && x * (-y) == -(x * y) && (-x) * (-y) == x * y
  {
  }

  lemma MulSwap(x: int, y: int, z: int)
    ensures (x * y) * z == x * (z * y)
  {
  }

  lemma {:induction false} PowAdd(a: nat, b: nat)
    ensures Pow2(a + b) == Pow2(a) * Pow2(b)
    decreases a
  {
    if a > 0 {
      PowAdd(a - 1, b);
      MulAssoc(2, Pow2(a - 1), Pow2(b));
    }
  }

  lemma PowStep(n: nat)
    ensures Pow2(0) == 1 && Pow2(n + 1) == 2 * Pow2(n)
  {
  }

  lemma PowValues()
    ensures Pow2(30) == 0x4000_0000
    ensures Pow2(15) == 0x8000 && Pow2(16) == 0x1_0000 && Pow2(31) == 0x8000_0000 && Pow2(32) == 0x1_0000_0000
  {
    assert Pow2(4) == 16;
    PowAdd(4, 4);
    PowAdd(8, 8);
    assert Pow2(16) == 2 * Pow2(15);
    PowAdd(16, 16);
    assert Pow2(32) == 2 * Pow2(31);
    assert Pow2(31) == 2 * Pow2(30);
  }

  /** Shifting left by `a` in a window of `a * b`: what leaves the window and what stays. */
  lemma ShiftSplit(x: int, a: nat, b: nat)
    requires a > 0 && b > 0
    ensures a * b > 0 && (x * a) / (a * b) == x / b && (x * a) % (a * b) == (x % b) * a
    ensures x * a == (x / b) * (a * b) + (x % b) * a
  {
    DivModParts(x, b);
    ShiftParts(x, a, b, x / b, x % b);
    DivModUnique(x * a, a * b, x / b, (x % b) * a);
  }

  lemma ShiftParts(x: int, a: nat, b: nat, q: int, r: int)
    requires a > 0 && b > 0 && x == q * b + r && 0 <= r < b
    ensures x * a == q * (a * b) + r * a && 0 <= r * a < a * b
  {
    MulSwap(q, b, a);
    MulAdd(q * b, r, a);
    MulNonNegative(r, a);
    var k := b - 1 - r;
    MulNonNegative(k, a);
    MulAdd(k, r + 1, a);
    MulAdd(r, 1, a);
  }

  lemma QuotientBelow(u: int, p: nat, c: nat)
    requires p > 0 && 0 <= u < p * c
    ensures 0 <= u / p < c
  {
    DivModParts(u, p);
    QuotientBounds(u, p, c, u / p, u % p);
  }

  lemma QuotientBounds(u: int, p: nat, c: nat, q: int, r: int)
    requires 0 <= u < p * c && u == q * p + r && 0 <= r < p
    ensures 0 <= q < c
  {
    if q >= c { MulMonotone(c, q, p); }
    if q < 0 { MulMonotone(q, -1, p); }
  }

  /** Adding a multiple of the divisor. */
  lemma QuotientAbove(x: int, p: nat, c: nat)
    requires p > 0
    ensures (x + p * c) / p == x / p + c
  {
    DivModParts(x, p);
    MulAdd(x / p, c, p);
    DivModUnique(x + p * c, p, x / p + c, x % p);
  }

  /** The quotient of a value within `p * c` of zero lies within `c`, with the value's sign. */
  lemma QuotientRange(x: int, p: nat, c: nat)
    requires p > 0 && -(p * c) <= x
    ensures x < 0 ==> x / p < 0 <= x / p + c
    ensures x >= 0 ==> x / p >= 0
  {
    DivModParts(x, p);
    QuotientSign(x, p, c, x / p, x % p);
  }

  lemma QuotientSign(x: int, p: nat, c: nat, q: int, r: int)
    requires -(p * c) <= x && x == q * p + r && 0 <= r < p
    ensures x < 0 ==> q < 0 <= q + c
    ensures x >= 0 ==> q >= 0
  {
    if q >= 0 { MulNonNegative(q, p); } else { MulMonotone(q, -1, p); }
    if q + c < 0 {
      MulMonotone(q + c, -1, p);
      MulAdd(q, c, p);
    }
  }
}
