/** The KE11 extended arithmetic element: each operation as the code computes it on 16-bit halves and a
32-bit temporary, and what it means for the signed value of AC:MQ. */
module Ke11 {
  import opened WordArithmetic

  /** The status register's bits; the last five are derived from AC and MQ. */
  datatype Flags = Flags(n: bool, nxv: bool, c: bool, mqz: bool, acz: bool, acm1: bool, sxt: bool, z: bool)

  datatype Ke = Ke(ac: Word, mq: Word, sr: Flags, sc: nat)

  const NO_FLAGS := Flags(false, false, false, false, false, false, false, false)

  /** AC:MQ as one signed 32-bit value, and as an unsigned one. */
  function Pair(s: Ke): (r: int)
    ensures Fits32(r)
  {
    Signed16(s.ac) * 0x1_0000 + s.mq
  }

  function UnsignedPair(s: Ke): nat { s.ac * 0x1_0000 + s.mq }

  predicate Negative(w: Word) { w >= 0x8000 }

  /** NXV holds N xor V, so the overflow is N xor NXV. */
  predicate Overflow(s: Ke) { s.sr.n != s.sr.nxv }

  // --- the operations ----------------------------------------------------------

  /** A word as written: the low byte of a byte write is sign-extended when it is negative. */
  function Written(v: Word, byteLow: bool): Word {
    if byteLow && v % 0x100 >= 0x80 then 0xFF00 + v % 0x100 else v
  }

  /** `update_SCSR`: the derived status bits. */
  function Publish(s: Ke): Ke {
    s.(sr := s.sr.(mqz := s.mq == 0, acz := s.ac == 0, acm1 := s.ac == 0xFFFF,
                   sxt := (s.ac == 0 && !Negative(s.mq)) || (s.ac == 0xFFFF && Negative(s.mq)),
                   z := s.ac == 0 && s.mq == 0))
  }

  function Result(ac: Word, mq: Word, negative: bool, v: bool, c: bool, sc: nat): Ke {
    Publish(Ke(ac, mq, NO_FLAGS.(n := negative, nxv := v != negative, c := c), sc))
  }

  /** The result of an operation whose 32-bit value is `t`, with the sign taken from AC. */
  function FromLong(t: int, v: bool, c: bool): Ke {
    var ac := (t / 0x1_0000) % 0x1_0000;
    Result(ac, t % 0x1_0000, Negative(ac), v, c, 0)
  }

  /** The 32-bit operand assembled from AC and MQ. */
  function Operand(ac: Word, mq: Word): int {
    var t := Wrap32(ac * 0x1_0000) + mq;
    if Negative(ac) then OrHigh(t, 31) else t
  }

  function SignExtended(w: Word): int { if Negative(w) then OrHigh(w, 15) else w }

  /** The divide that does not fit: one step of the hardware's subtraction, and the overflow. */
  function DivFailed(s: Ke, d: int): Ke {
    var same := Negative(s.ac) == (d < 0);
    var ac := (2 * s.ac + s.mq / 0x8000) % 0x1_0000;
    var ac2 := (if same then ac - d else ac + d) % 0x1_0000;
    var mq2 := (2 * s.mq + (if same then 1 else 0)) % 0x1_0000;
    Result(ac2, mq2, Negative(mq2), true, Negative(ac2) == (d < 0), 15)
  }

  function DivDone(t: int, d: int): Ke
    requires d != 0
  {
    var quo := TruncDiv(t, d);
    var mq := quo % 0x1_0000;
    Result(TruncRem(t, d) % 0x1_0000, mq, Negative(mq), quo > 32767 || quo < -32768, false, 0)
  }

  predicate DivRefused(t: int, d: int) { Abs(t) / 0x1_0000 >= Abs(d) }

  function Div(s: Ke, v: Word): Ke {
    var t, d := Operand(s.ac, s.mq), SignExtended(v);
    if DivRefused(t, d) then DivFailed(s, d) else DivDone(t, d)
  }

  function Mul(s: Ke, v: Word): Ke {
    FromLong(SignExtended(s.mq) * SignExtended(v), false, false)
  }

  /** Normalised: AC<15> differs from AC<14>, or the value is the most negative power that still has a sign bit
  to spare. */
  predicate Normal(ac: Word, mq: Word) {
    (ac == 0xC000 && mq == 0) || Negative(ac) != (ac % 0x8000 >= 0x4000)
  }

  function ShiftedAc(ac: Word, mq: Word): Word { (2 * ac + mq / 0x8000) % 0x1_0000 }

  function ShiftedMq(mq: Word): Word { (2 * mq) % 0x1_0000 }

  /** The normalise loop with `sc` shifts done. */
  function NorLoop(ac: Word, mq: Word, sc: nat): Ke
    requires sc <= 31
    decreases 31 - sc
  {
    if sc == 31 || Normal(ac, mq) then Result(ac, mq, Negative(ac), false, false, sc)
    else NorLoop(ShiftedAc(ac, mq), ShiftedMq(mq), sc + 1)
  }

  function Nor(s: Ke): Ke { NorLoop(s.ac, s.mq, 0) }

  /** All ones above bit `k` or-ed in for a negative operand. */
  function SignFill(x: int, k: nat, negative: bool): int { if negative then OrHigh(x, k) else x }

  predicate Odd(x: int) { x % 2 == 1 }

  function LshLeft(t: int, k: nat, negative: bool): Ke
    requires 1 <= k <= 31
  {
    var sout := SignFill(Asr(t, 32 - k), k, negative);
    var t2 := Wrap32(Unsigned32(t) * Pow2(k));
    FromLong(t2, sout != (if t2 < 0 then -1 else 0), Odd(sout))
  }

  function LshRight(t: int, k: nat): Ke
    requires 32 <= k <= 63
  {
    FromLong(if k != 32 then Lsr(t, 64 - k) else 0, false, Odd(Asr(t, 63 - k)))
  }

  /** Logical shift by a six-bit count: 1 to 31 left, 32 to 63 right by 32 down to 1. */
  function Lsh(s: Ke, v: Word): Ke {
    var k := v % 64;
    if k == 0 then Result(s.ac, s.mq, Negative(s.ac), false, false, 0)
    else if k < 32 then LshLeft(Operand(s.ac, s.mq), k, Negative(s.ac))
    else LshRight(Operand(s.ac, s.mq), k)
  }

  function AshLeft(t: int, k: nat, negative: bool): Ke
    requires 1 <= k <= 31
  {
    var sout := SignFill(Asr(t, 31 - k), k, negative);
    var t2 := (if t < 0 then -0x8000_0000 else 0) + (t * Pow2(k)) % 0x8000_0000;
    FromLong(t2, sout != (if t2 < 0 then -1 else 0), Odd(sout))
  }

  function AshRight(t: int, k: nat, negative: bool): Ke
    requires 32 <= k <= 63
  {
    var t2 := if k != 32 then SignFill(Lsr(t, 64 - k), k - 32, negative)
              else if negative then -1 else 0;
    FromLong(t2, false, Odd(Asr(t, 63 - k)))
  }

  /** Arithmetic shift by a six-bit count; a left shift keeps the sign bit. */
  function Ash(s: Ke, v: Word): Ke {
    var k := v % 64;
    if k == 0 then Result(s.ac, s.mq, Negative(s.ac), false, false, 0)
    else if k < 32 then AshLeft(Operand(s.ac, s.mq), k, Negative(s.ac))
    else AshRight(Operand(s.ac, s.mq), k, Negative(s.ac))
  }

  function LoadAc(s: Ke, v: Word): Ke { Publish(s.(ac := v)) }

  function LoadMq(s: Ke, v: Word): Ke { Publish(s.(mq := v, ac := if Negative(v) then 0xFFFF else 0)) }

  /** A word write of SC/SR keeps N, NXV, C and the step count. */
  function LoadScSr(s: Ke, v: Word): Ke {
    var high := v / 0x100;
    s.(sr := NO_FLAGS.(nxv := high >= 0x80, n := high % 0x80 >= 0x40, c := high % 2 == 1), sc := v % 0x100)
  }

  /** The status byte, bit 7 first. */
  function SrByte(f: Flags): nat {
    0x80 * B(f.nxv) + 0x40 * B(f.n) + 0x20 * B(f.acm1) + 0x10 * B(f.acz)
    + 8 * B(f.mqz) + 4 * B(f.z) + 2 * B(f.sxt) + B(f.c)
  }

  /** The status and count as the SC/SR word shows them. */
  function ScSrWord(s: Ke): nat { 0x100 * SrByte(s.sr) + s.sc % 0x100 }

  function B(b: bool): nat { if b then 1 else 0 }

  /** A program that saves the SC/SR word and writes it back later: N, NXV, C and the count are as saved, the
  derived bits read zero, and the next update derives them again - the saved word, if AC and MQ are as they
  were. */
  lemma ScSrRoundTrip(s: Ke, t: Ke)
    requires s.sc < 0x100
    ensures ScSrWord(s) < 0x1_0000
    ensures var r := LoadScSr(t, ScSrWord(s));
            && r.sr == NO_FLAGS.(nxv := s.sr.nxv, n := s.sr.n, c := s.sr.c)
            && r.sc == s.sc && Overflow(r) == Overflow(s) && r.ac == t.ac && r.mq == t.mq
            && (s == Publish(s) && t.ac == s.ac && t.mq == s.mq ==> Publish(r) == s)
  {
    hide ScSrWord;
    ScSrFields(s);
  }

  lemma ScSrFields(s: Ke)
    requires s.sc < 0x100
    ensures var w := ScSrWord(s);
            && w < 0x1_0000 && w % 0x100 == s.sc
            && (w / 0x100 >= 0x80 <==> s.sr.nxv) && (w / 0x100 % 0x80 >= 0x40 <==> s.sr.n)
            && (w / 0x100 % 2 == 1 <==> s.sr.c)
  {
    hide SrByte;
    SrBits(s.sr);
    assert ScSrWord(s) / 0x100 == SrByte(s.sr);
  }

  lemma SrBits(f: Flags)
    ensures var b := SrByte(f);
            b < 0x100 && (b >= 0x80 <==> f.nxv) && (b % 0x80 >= 0x40 <==> f.n) && (b % 2 == 1 <==> f.c)
  {
    var derived := 0x10 * B(f.acm1) + 8 * B(f.acz) + 4 * B(f.mqz) + 2 * B(f.z) + B(f.sxt);
    BitParts(B(f.nxv), B(f.n), derived, B(f.c));
  }

  lemma BitParts(nxv: nat, n: nat, derived: nat, c: nat)
    requires nxv < 2 && n < 2 && derived < 0x20 && c < 2
    ensures var b := 0x80 * nxv + 0x40 * n + 2 * derived + c;
            b < 0x100 && (b >= 0x80 <==> nxv == 1) && (b % 0x80 >= 0x40 <==> n == 1) && b % 2 == c
  {
  }

  // --- reading the halves as one value --------------------------------------------

  lemma OrHighNoop(x: int, k: nat)
    requires x < 0 <= x + Pow2(k)
    ensures OrHigh(x, k) == x
  {
    DivModUnique(x, Pow2(k), -1, x + Pow2(k));
  }

  lemma SignExtendedIs(w: Word)
    ensures SignExtended(w) == Signed16(w)
  {
    PowValues();
  }

  lemma OperandIs(s: Ke)
    ensures Operand(s.ac, s.mq) == Pair(s) && UnsignedPair(s) == Unsigned32(Pair(s))
  {
    PowValues();
    hide Pow2, OrHigh;
    if Negative(s.ac) { OrHighNoop(Pair(s), 31); }
  }

  /** The derived bits say what they are named for: zero, and AC no more than the sign of MQ. */
  lemma DerivedBits(s: Ke)
    ensures var r := Publish(s);
            && (r.sr.z <==> Pair(s) == 0) && (r.sr.sxt <==> Fits16(Pair(s)))
            && (r.sr.acm1 <==> Signed16(s.ac) == -1)
            && r.ac == s.ac && r.mq == s.mq && r.sc == s.sc && Overflow(r) == Overflow(s)
  {
  }

  /** Loading AC replaces the upper half of the pair and nothing but what is derived from it. */
  lemma LoadAcReplaces(s: Ke, v: Word)
    ensures var r := LoadAc(s, v);
            && Pair(r) == Signed16(v) * 0x1_0000 + s.mq && Derived(r)
            && r.sr.n == s.sr.n && r.sr.nxv == s.sr.nxv && r.sr.c == s.sr.c && r.sc == s.sc
  {
    hide Derived, Published, Publish;
    PublishTwice(s.(ac := v));
    PublishedDerived(LoadAc(s, v));
  }

  lemma PublishTwice(s: Ke)
    ensures var r := Publish(s);
            && Published(r) && r.ac == s.ac && r.mq == s.mq && r.sc == s.sc
            && r.sr.n == s.sr.n && r.sr.nxv == s.sr.nxv && r.sr.c == s.sr.c
  {
  }

  /** Loading MQ extends its sign through AC, so the pair is the word's value and SXT says so. */
  lemma LoadMqExtends(s: Ke, v: Word)
    ensures Pair(LoadMq(s, v)) == Signed16(v) && LoadMq(s, v).sr.sxt && (LoadMq(s, v).sr.z <==> v == 0)
  {
  }

  lemma FromLongIs(t: int, v: bool, c: bool)
    requires Fits32(t) || 0 <= t < 0x1_0000_0000
    ensures var r := FromLong(t, v, c);
            && UnsignedPair(r) == Unsigned32(t) && (Fits32(t) ==> Pair(r) == t)
            && (r.sr.n <==> Pair(r) < 0) && Overflow(r) == v && r.sr.c == c && r.sc == 0
  {
  }

  // --- divide ------------------------------------------------------------------------

  /** `t` divided by `d` gives `q` and leaves `e`: the remainder is smaller than the divisor and has the
  dividend's sign. */
  predicate Divides(t: int, d: int, q: int, e: int) {
    t == q * d + e && Abs(e) < Abs(d) && (t >= 0 ==> e >= 0) && (t <= 0 ==> e <= 0)
  }

  lemma DividesOnce(t: int, d: int, q: int, e: int, q2: int, e2: int)
    requires Divides(t, d, q, e) && Divides(t, d, q2, e2)
    ensures q == q2 && e == e2
  {
    MulNegate(q, d);
    MulNegate(q2, d);
    if t >= 0 {
      if d > 0 { UniqueParts(d, q, e, q2, e2); } else { UniqueParts(-d, -q, e, -q2, e2); }
    } else {
      if d > 0 { UniqueParts(d, -q, -e, -q2, -e2); } else { UniqueParts(-d, q, -e, q2, -e2); }
    }
  }

  lemma DividesTrunc(t: int, d: int)
    requires d != 0
    ensures Divides(t, d, TruncDiv(t, d), TruncRem(t, d))
  {
    hide TruncDiv, TruncRem;
    TruncFacts(t, d);
  }

  /** The guard refuses only what cannot fit: a zero divisor, or a quotient of more than 16 bits. */
  lemma RefusedNeverFits(t: int, d: int, q: int, e: int)
    requires DivRefused(t, d) && Divides(t, d, q, e)
    ensures Abs(q) >= 0x1_0000
  {
    AbsMul(q, d);
    if Abs(q) < 0x1_0000 {
      MulMonotone(Abs(q), 0xFFFF, Abs(d));
    }
  }

  /** Divide: the overflow is reported exactly when no 16-bit quotient exists; otherwise signed MQ is the quotient
  and signed AC the remainder.  AC is the remainder whenever the guard lets the division through, also when the
  quotient then turns out not to fit. */
  lemma DivMeans(s: Ke, v: Word)
    ensures var r, t, d := Div(s, v), Pair(s), Signed16(v);
            && (!Overflow(r) ==> Divides(t, d, Signed16(r.mq), Signed16(r.ac)) && !r.sr.c && r.sc == 0)
            && (Overflow(r) ==> forall q, e :: Divides(t, d, q, e) ==> !Fits16(q))
            && (r.sr.n <==> Negative(r.mq))
            && (!DivRefused(t, d) ==> d != 0 && Divides(t, d, TruncDiv(t, d), Signed16(r.ac)))
            && (!DivRefused(t, d) ==> r.mq == TruncDiv(t, d) % 0x1_0000)
  {
    hide TruncDiv, TruncRem, Operand, SignExtended, Pair, DivFailed, DivDone, Overflow, Divides, DivRefused;
    var t, d := Pair(s), Signed16(v);
    OperandIs(s);
    SignExtendedIs(v);
    if DivRefused(t, d) {
      DivFailedIs(s, d);
      forall q, e | Divides(t, d, q, e) ensures !Fits16(q) { RefusedNeverFits(t, d, q, e); }
    } else {
      DivDoneIs(t, d);
      DividesTrunc(t, d);
      forall q, e | Divides(t, d, q, e) ensures q == TruncDiv(t, d) {
        DividesOnce(t, d, q, e, TruncDiv(t, d), TruncRem(t, d));
      }
    }
  }

  /** The guard refuses exactly a zero divisor and quotients of more than 16 bits. */
  lemma RefusedExactly(t: int, d: int)
    ensures DivRefused(t, d) <==> d == 0 || Abs(TruncDiv(t, d)) >= 0x1_0000
  {
    hide TruncDiv, TruncRem, DivRefused;
    if d != 0 {
      DividesTrunc(t, d);
      if DivRefused(t, d) {
        RefusedNeverFits(t, d, TruncDiv(t, d), TruncRem(t, d));
      } else {
        PassedFits(t, d, TruncDiv(t, d), TruncRem(t, d));
      }
    } else {
      ZeroRefused(t);
    }
  }

  lemma ZeroRefused(t: int)
    ensures DivRefused(t, 0)
  {
  }

  lemma PassedFits(t: int, d: int, q: int, e: int)
    requires !DivRefused(t, d) && Divides(t, d, q, e)
    ensures Abs(q) < 0x1_0000
  {
    AbsMul(q, d);
    if Abs(q) >= 0x1_0000 { MulMonotone(0x1_0000, Abs(q), Abs(d)); }
  }

  /** A division refused leaves one step of the subtraction: the pair doubled, less the divisor in its upper half or
  plus it, by the signs, and the sign agreement in its lowest bit; C says whether the result agrees with the divisor.
  */
  lemma DivFailedMeans(s: Ke, v: Word)
    requires DivRefused(Pair(s), Signed16(v))
    ensures var r, d, same := Div(s, v), Signed16(v), (s.ac >= 0x8000) == (v >= 0x8000);
            && (UnsignedPair(r) - (2 * UnsignedPair(s) + (if same then 1 - d * 0x1_0000 else d * 0x1_0000)))
               % 0x1_0000_0000 == 0
            && r.sc == 15 && (r.sr.c <==> (r.ac >= 0x8000) == (v >= 0x8000))
  {
    hide Pair, DivRefused, Operand, SignExtended;
    OperandIs(s);
    SignExtendedIs(v);
    var d, same := Signed16(v), Negative(s.ac) == (Signed16(v) < 0);
    var x := 2 * s.ac + s.mq / 0x8000;
    var y := if same then x % 0x1_0000 - d else x % 0x1_0000 + d;
    var z := 2 * s.mq + (if same then 1 else 0);
    assert z % 0x1_0000 == z - 0x1_0000 * (s.mq / 0x8000);
    WholeTurns(x, y);
    Turns(-(x / 0x1_0000) - y / 0x1_0000);
  }

  lemma WholeTurns(x: int, y: int)
    ensures x % 0x1_0000 == x - 0x1_0000 * (x / 0x1_0000) && y % 0x1_0000 == y - 0x1_0000 * (y / 0x1_0000)
  {
  }

  lemma Turns(k: int)
    ensures (0x1_0000_0000 * k) % 0x1_0000_0000 == 0
  {
  }

  /** A byte write of AC, MQ, the divisor or the multiplier takes the byte's signed value; a word write the word. */
  lemma BytesExtend(v: Word)
    ensures Written(v, false) == v
    ensures v < 0x100 ==> Signed16(Written(v, true)) == (if v < 0x80 then v else v - 0x100)
  {
  }

  lemma DivFailedIs(s: Ke, d: int)
    ensures Overflow(DivFailed(s, d)) && (DivFailed(s, d).sr.n <==> Negative(DivFailed(s, d).mq))
  {
  }

  lemma DivDoneIs(t: int, d: int)
    requires !DivRefused(t, d) && -0x8000 <= d < 0x8000
    ensures d != 0
    ensures var r, q := DivDone(t, d), TruncDiv(t, d);
            && (Overflow(r) <==> !Fits16(q)) && (Fits16(q) ==> Signed16(r.mq) == q)
            && Signed16(r.ac) == TruncRem(t, d) && !r.sr.c && r.sc == 0 && (r.sr.n <==> Negative(r.mq))
            && r.mq == q % 0x1_0000
  {
    hide TruncDiv, TruncRem;
    if d != 0 { TruncRemBound(t, d); }
  }

  // --- multiply -----------------------------------------------------------------------

  lemma ProductFits(x: int, y: int)
    requires Fits16(x) && Fits16(y)
    ensures Fits32(x * y) && Abs(x * y) <= 0x8000 * Abs(y)
  {
    AbsMul(x, y);
    MulMonotone(Abs(x), 0x8000, Abs(y));
  }

  /** Multiply: AC:MQ is the exact signed product, N is its sign, and nothing overflows. */
  lemma MulMeans(s: Ke, v: Word)
    ensures var r := Mul(s, v);
            && Pair(r) == Signed16(s.mq) * Signed16(v) && (r.sr.n <==> Pair(r) < 0)
            && !Overflow(r) && !r.sr.c && r.sc == 0
  {
    hide SignExtended, FromLong, Pair;
    SignExtendedIs(s.mq);
    SignExtendedIs(v);
    ProductFits(Signed16(s.mq), Signed16(v));
    FromLongIs(Signed16(s.mq) * Signed16(v), false, false);
  }

  /** Multiply by `v`, then divide by it: MQ is back, AC is zero, and there is no overflow. */
  lemma MulThenDiv(s: Ke, v: Word)
    requires v != 0
    ensures var r := Div(Mul(s, v), v); r.mq == s.mq && r.ac == 0 && !Overflow(r)
  {
    hide Mul, Div, Pair, Divides, Overflow;
    var x, d, r := Signed16(s.mq), Signed16(v), Div(Mul(s, v), v);
    MulMeans(s, v);
    DivMeans(Mul(s, v), v);
    assert Divides(x * d, d, x, 0) by { ExactDivides(x, d); }
    if !Overflow(r) { DividesOnce(x * d, d, x, 0, Signed16(r.mq), Signed16(r.ac)); }
  }

  lemma ExactDivides(x: int, d: int)
    requires d != 0
    ensures Divides(x * d, d, x, 0)
  {
  }

  // --- normalise ------------------------------------------------------------------------

  function PairOf(ac: Word, mq: Word): int { Signed16(ac) * 0x1_0000 + mq }

  /** The loop's exit test: the value has reached a half of its range. */
  lemma NormalIs(ac: Word, mq: Word)
    ensures Normal(ac, mq) <==> PairOf(ac, mq) >= 0x4000_0000 || PairOf(ac, mq) <= -0x4000_0000
  {
  }

  lemma ShiftedIs(ac: Word, mq: Word)
    requires !Normal(ac, mq)
    ensures PairOf(ShiftedAc(ac, mq), ShiftedMq(mq)) == 2 * PairOf(ac, mq)
  {
    var top, low := mq / 0x8000, mq % 0x8000;
    assert ShiftedMq(mq) == 2 * low;
    assert ShiftedAc(ac, mq) == 2 * ac + top - (if Negative(ac) then 0x1_0000 else 0);
  }

  lemma ResultIs(ac: Word, mq: Word, sc: nat)
    ensures var r := Result(ac, mq, Negative(ac), false, false, sc);
            && r.ac == ac && r.mq == mq && Pair(r) == PairOf(ac, mq) && r.sc == sc
            && (r.sr.n <==> Pair(r) < 0) && !Overflow(r) && !r.sr.c
  {
  }

  /** What `sc` shifts leave: zero, or a value that has reached 2^sc with room for a shift more. */
  predicate ShiftedTo(x: int, sc: nat) { x == 0 || (sc < 31 && Abs(x) >= Pow2(sc)) }

  lemma {:induction false} NorLoopMeans(ac: Word, mq: Word, sc: nat)
    requires sc <= 31
    ensures var r := NorLoop(ac, mq, sc);
            ShiftedTo(PairOf(ac, mq), sc) ==>
              && sc <= r.sc <= 31 && Pair(r) == PairOf(ac, mq) * Pow2(r.sc - sc)
              && (PairOf(ac, mq) == 0 <==> r.sc == 31)
              && (PairOf(ac, mq) != 0 ==> Normal(r.ac, r.mq))
              && (r.sr.n <==> Pair(r) < 0) && !Overflow(r) && !r.sr.c
    decreases 31 - sc
  {
    hide ShiftedAc, ShiftedMq, Normal, Pow2, Pair, Result, Signed16;
    var x := PairOf(ac, mq);
    NormalIs(ac, mq);
    PowValues();
    PowStep(sc);
    ResultIs(ac, mq, sc);
    if ShiftedTo(x, sc) && sc < 31 && !Normal(ac, mq) {
      var ac2, mq2 := ShiftedAc(ac, mq), ShiftedMq(mq);
      ShiftedIs(ac, mq);
      NorLoopMeans(ac2, mq2, sc + 1);
      var p := Pow2(NorLoop(ac2, mq2, sc + 1).sc - (sc + 1));
      PowStep(NorLoop(ac2, mq2, sc + 1).sc - (sc + 1));
      MulAssoc(x, 2, p);
    }
  }

  /** Normalise: the value is multiplied by two to the step count, no bit is lost, and the count is 31 exactly for zero;
  otherwise the result has reached a half of the 32-bit range. */
  lemma NorMeans(s: Ke)
    ensures var r, x := Nor(s), Pair(s);
            && r.sc <= 31 && Pair(r) == x * Pow2(r.sc) && (r.sc == 31 <==> x == 0)
            && (x > 0 ==> 0x4000_0000 <= Pair(r) < 0x8000_0000)
            && (x < 0 ==> -0x8000_0000 <= Pair(r) <= -0x4000_0000)
            && (r.sr.n <==> x < 0) && !Overflow(r) && !r.sr.c
  {
    hide Normal, NorLoop, Signed16;
    var r, x := Nor(s), Pair(s);
    PowValues();
    NorLoopMeans(s.ac, s.mq, 0);
    NormalIs(r.ac, r.mq);
    if x != 0 { SignMul(x, Pow2(r.sc)); }
  }

  // --- shifts ----------------------------------------------------------------------------

  /** What a left shift by `k` in a window of `m` values must say: the overflow, and the last bit lost. */
  lemma AsrRange(x: int, n: nat)
    requires Fits32(x) && n <= 31
    ensures x < 0 ==> Asr(x, n) < 0 <= Asr(x, n) + Pow2(31 - n)
    ensures x >= 0 ==> Asr(x, n) >= 0
  {
    PowAdd(n, 31 - n);
    PowValues();
    QuotientRange(x, Pow2(n), Pow2(31 - n));
  }

  /** The sign fill repeats what the arithmetic shift has already done. */
  lemma SignFillNoop(x: int, n: nat, k: nat)
    requires Fits32(x) && n <= 31 && 31 - n <= k
    ensures SignFill(Asr(x, n), k, x < 0) == Asr(x, n)
  {
    hide Asr, OrHigh;
    AsrRange(x, n);
    PowAdd(31 - n, k - (31 - n));
    MulMonotone(1, Pow2(k - (31 - n)), Pow2(31 - n));
    MulSwap(1, Pow2(31 - n), Pow2(k - (31 - n)));
    if x < 0 { OrHighNoop(Asr(x, n), k); }
  }

  /** A value split at bit 32 into what a logical left shift loses and what it keeps. */
  lemma LshLeftCore(lost: int, kept: int)
    requires 0 <= kept < 0x1_0000_0000
    ensures var y := lost * 0x1_0000_0000 + kept;
            var t2 := Wrap32(kept);
            var r := FromLong(t2, lost != (if t2 < 0 then -1 else 0), Odd(lost));
            && UnsignedPair(r) == kept
            && (Overflow(r) <==> !Fits32(y)) && (Fits32(y) ==> Pair(r) == y)
            && (r.sr.c <==> Odd(lost)) && r.sc == 0 && (r.sr.n <==> Pair(r) < 0)
  {
    hide FromLong, Overflow, Pair, UnsignedPair, Odd;
    var t2 := Wrap32(kept);
    FromLongIs(t2, lost != (if t2 < 0 then -1 else 0), Odd(lost));
  }

  lemma WrapMod(x: int)
    ensures Wrap32(x) == Wrap32(x % 0x1_0000_0000)
  {
  }

  /** Logical left shift: the unsigned result is the operand times 2^k with the bits above the top dropped; the overflow
  is raised exactly when the signed product does not fit, and C is the last bit dropped. */
  lemma LshLeftMeans(x: int, k: nat)
    requires Fits32(x) && 1 <= k <= 31
    ensures var r, y := LshLeft(x, k, x < 0), x * Pow2(k);
            && y == Asr(x, 32 - k) * 0x1_0000_0000 + UnsignedPair(r)
            && (Overflow(r) <==> !Fits32(y)) && (Fits32(y) ==> Pair(r) == y)
            && (r.sr.c <==> Odd(Asr(x, 32 - k))) && r.sc == 0 && (r.sr.n <==> Pair(r) < 0)
  {
    hide Pow2, SignFill, FromLong, Overflow, Pair, UnsignedPair, Wrap32, Unsigned32, Odd;
    var a, b := Pow2(k), Pow2(32 - k);
    SignFillNoop(x, 32 - k, k);
    PowAdd(k, 32 - k);
    PowValues();
    ShiftSplit(x, a, b);
    UnsignedTimes(x, a);
    WrapMod(Unsigned32(x) * a);
    LshLeftCore(x / b, (x * a) % 0x1_0000_0000);
  }

  /** Multiplying the unsigned reading instead of the signed one changes nothing modulo 2^32. */
  lemma UnsignedTimes(x: int, a: nat)
    requires Fits32(x)
    ensures (Unsigned32(x) * a) % 0x1_0000_0000 == (x * a) % 0x1_0000_0000
  {
    var m := 0x1_0000_0000;
    if x < 0 {
      MulAdd(x, m, a);
      DivModParts(x * a, m);
      assert Unsigned32(x) == x + m;
      assert (x + m) * a == ((x * a) / m + a) * m + (x * a) % m;
      DivModUnique((x + m) * a, m, (x * a) / m + a, (x * a) % m);
    }
  }

  /** The same split at bit 31, below a sign that is kept. */
  lemma AshLeftCore(lost: int, kept: int, negative: bool)
    requires 0 <= kept < 0x8000_0000 && (lost < 0 <==> negative)
    ensures var y := lost * 0x8000_0000 + kept;
            var t2 := (if negative then -0x8000_0000 else 0) + kept;
            var r := FromLong(t2, lost != (if t2 < 0 then -1 else 0), Odd(lost));
            && (Overflow(r) <==> !Fits32(y)) && (Fits32(y) ==> Pair(r) == y) && (Pair(r) < 0 <==> negative)
            && (y - Pair(r)) % 0x8000_0000 == 0
            && (r.sr.c <==> Odd(lost)) && r.sc == 0 && (r.sr.n <==> Pair(r) < 0)
  {
    hide FromLong, Overflow, Pair, UnsignedPair, Odd;
    var t2 := (if negative then -0x8000_0000 else 0) + kept;
    FromLongIs(t2, lost != (if t2 < 0 then -1 else 0), Odd(lost));
  }

  /** Arithmetic left shift: as above against the 31 bits below the sign, which is kept. */
  lemma AshLeftMeans(x: int, k: nat)
    requires Fits32(x) && 1 <= k <= 31
    ensures var r, y := AshLeft(x, k, x < 0), x * Pow2(k);
            && (Overflow(r) <==> !Fits32(y)) && (Fits32(y) ==> Pair(r) == y)
            && (Pair(r) < 0 <==> x < 0) && (y - Pair(r)) % 0x8000_0000 == 0
            && (r.sr.c <==> Odd(Asr(x, 31 - k))) && r.sc == 0 && (r.sr.n <==> Pair(r) < 0)
  {
    hide Pow2, SignFill, FromLong, Overflow, Pair, UnsignedPair, Odd;
    var a, b := Pow2(k), Pow2(31 - k);
    SignFillNoop(x, 31 - k, k);
    AsrRange(x, 31 - k);
    PowAdd(k, 31 - k);
    PowValues();
    ShiftSplit(x, a, b);
    AshLeftCore(x / b, (x * a) % 0x8000_0000, x < 0);
  }

  lemma FromUnsigned(t: int, c: bool)
    requires 0 <= t < 0x8000_0000
    ensures var r := FromLong(t, false, c); UnsignedPair(r) == t && !Overflow(r) && r.sr.c == c && r.sc == 0
    ensures FromLong(t, false, c).sr.n <==> Pair(FromLong(t, false, c)) < 0
  {
  }

  lemma LsrSmall(x: int, n: nat)
    requires Fits32(x) && 1 <= n <= 32
    ensures 0 <= Lsr(x, n) < 0x8000_0000 && (n == 32 ==> Lsr(x, n) == 0)
  {
    hide Lsr;
    UnsignedShift(x, n);
    PowStep(0);
  }

  /** Right shifts, by 64 - k: the unsigned quotient for LSH, the signed floor for ASH; C is the last bit lost. */
  lemma LshRightMeans(x: int, k: nat)
    requires Fits32(x) && 32 <= k <= 63
    ensures var r := LshRight(x, k);
            && UnsignedPair(r) == Lsr(x, 64 - k) && !Overflow(r)
            && (r.sr.c <==> Odd(Asr(x, 63 - k))) && r.sc == 0 && (r.sr.n <==> Pair(r) < 0)
  {
    hide Pow2, FromLong, Overflow, UnsignedPair, Asr, Odd, Lsr, Pair;
    LsrSmall(x, 64 - k);
    FromUnsigned(Lsr(x, 64 - k), Odd(Asr(x, 63 - k)));
  }

  lemma UnsignedShift(x: int, n: nat)
    requires Fits32(x) && 1 <= n <= 32
    ensures Lsr(x, n) == Asr(x, n) + (if x < 0 then Pow2(32 - n) else 0)
    ensures 0 <= Lsr(x, n) < Pow2(32 - n) <= 0x8000_0000
  {
    hide Pow2;
    var p, c := Pow2(n), Pow2(32 - n);
    PowAdd(n, 32 - n);
    PowAdd(n - 1, 32 - n);
    PowValues();
    QuotientBelow(Unsigned32(x), p, c);
    if x < 0 { QuotientAbove(x, p, c); }
    MulMonotone(1, Pow2(n - 1), c);
  }

  lemma OrHighTop(u: int, k: nat)
    requires 0 <= u < Pow2(k)
    ensures OrHigh(u, k) == u - Pow2(k)
  {
    DivModUnique(u, Pow2(k), 0, u);
  }

  lemma AsrAll(x: int)
    requires Fits32(x)
    ensures Asr(x, 32) == if x < 0 then -1 else 0
  {
    PowValues();
  }

  lemma AsrFits(x: int, n: nat)
    requires Fits32(x)
    ensures Fits32(Asr(x, n))
  {
    var p := Pow2(n);
    DivModParts(x, p);
    var q := x / p;
    if q >= 0 { MulMonotone(1, p, q); } else { MulMonotone(1, p, -q); MulNegate(q, p); MulMonotone(q, -1, p); }
  }

  lemma AshRightMeans(x: int, k: nat)
    requires Fits32(x) && 32 <= k <= 63
    ensures var r := AshRight(x, k, x < 0);
            && Pair(r) == Asr(x, 64 - k) && !Overflow(r)
            && (r.sr.c <==> Odd(Asr(x, 63 - k))) && r.sc == 0 && (r.sr.n <==> x < 0)
  {
    hide Pow2, FromLong, Overflow, Pair, OrHigh, UnsignedPair, Asr, Odd, Lsr;
    PowValues();
    var n := 64 - k;
    UnsignedShift(x, n);
    if n < 32 { AsrRange(x, n); } else { AsrAll(x); }
    if x < 0 && k != 32 { OrHighTop(Lsr(x, n), k - 32); }
    AsrFits(x, n);
    FromLongIs(Asr(x, n), false, Odd(Asr(x, 63 - k)));
  }

  /** A count of zero clears the flags of the last operation and nothing else. */
  lemma NoShift(s: Ke)
    ensures var r := Result(s.ac, s.mq, Negative(s.ac), false, false, 0);
            Pair(r) == Pair(s) && !Overflow(r) && !r.sr.c && r.sc == 0 && (r.sr.n <==> Pair(r) < 0)
  {
  }

  lemma QuotientNegative(x: int, p: nat)
    requires p > 0
    ensures x / p < 0 <==> x < 0
  {
  }

  lemma BitLost(x: int, n: int)
    requires n >= 0
    ensures Asr(x, n) == x / Pow2(n) && (Odd(Asr(x, n)) <==> x / Pow2(n) % 2 == 1)
  {
  }

  /** LSH by any count: times 2^k modulo 2^32 to the left, unsigned division by 2^(64-k) to the right.  The overflow is
  raised exactly by a left shift whose signed product does not fit, C is the last bit shifted out. */
  lemma LshMeans(s: Ke, v: Word)
    ensures var r, x, k := Lsh(s, v), Pair(s), v % 64;
            && r.sc == 0
            && (k == 0 ==> Pair(r) == x && !Overflow(r) && !r.sr.c)
            && (1 <= k < 32 ==>
                 && x * Pow2(k) == x / Pow2(32 - k) * 0x1_0000_0000 + UnsignedPair(r)
                 && (Overflow(r) <==> !Fits32(x * Pow2(k))) && (r.sr.c <==> x / Pow2(32 - k) % 2 == 1))
            && (32 <= k ==>
                 && UnsignedPair(r) == UnsignedPair(s) / Pow2(64 - k)
                 && !Overflow(r) && (r.sr.c <==> x / Pow2(63 - k) % 2 == 1))
            && (r.sr.n <==> Pair(r) < 0)
  {
    hide LshLeft, LshRight, Operand, Pair, Overflow, Odd, Pow2, Asr, UnsignedPair, Result;
    var x, k := Pair(s), v % 64;
    OperandIs(s);
    SignOf(s);
    if k == 0 { NoShift(s); } else if k < 32 { LshLeftMeans(x, k); } else { LshRightMeans(x, k); }
    if k < 32 { BitLost(x, 32 - k); } else { BitLost(x, 63 - k); }
  }

  lemma SignOf(s: Ke)
    ensures Negative(s.ac) <==> Pair(s) < 0
  {
  }

  /** ASH by any count: times 2^k to the left with the sign kept, floor division by 2^(64-k) to the right.  The overflow
  is raised exactly by a left shift whose product does not fit; without it the product is the result. */
  lemma AshMeans(s: Ke, v: Word)
    ensures var r, x, k := Ash(s, v), Pair(s), v % 64;
            && r.sc == 0
            && (k == 0 ==> Pair(r) == x && !Overflow(r) && !r.sr.c)
            && (1 <= k < 32 ==>
                 && (Overflow(r) <==> !Fits32(x * Pow2(k))) && (!Overflow(r) ==> Pair(r) == x * Pow2(k))
                 && (Pair(r) < 0 <==> x < 0) && (x * Pow2(k) - Pair(r)) % 0x8000_0000 == 0
                 && (r.sr.c <==> x / Pow2(31 - k) % 2 == 1))
            && (32 <= k ==>
                 && Pair(r) == x / Pow2(64 - k) && !Overflow(r) && (r.sr.c <==> x / Pow2(63 - k) % 2 == 1))
            && (r.sr.n <==> Pair(r) < 0)
  {
    hide AshLeft, AshRight, Operand, Pair, Overflow, Odd, Pow2, Result;
    var x, k := Pair(s), v % 64;
    OperandIs(s);
    SignOf(s);
    if k == 0 { NoShift(s); } else if k < 32 { AshLeftMeans(x, k); } else { AshRightMeans(x, k); }
    if k < 32 {
      BitLost(x, 31 - k);
    } else {
      BitLost(x, 63 - k);
      QuotientNegative(x, Pow2(64 - k));
    }
  }

  lemma PairInjective(s: Ke, r: Ke)
    requires Pair(s) == Pair(r)
    ensures s.ac == r.ac && s.mq == r.mq
  {
  }

  lemma AsrUndoes(x: int, k: nat)
    requires k > 0
    ensures x * Pow2(k) / Pow2(k) == Asr(x * Pow2(k), k) == x && x * Pow2(k) / Pow2(k - 1) % 2 == 0
  {
    DivModUnique(x * Pow2(k), Pow2(k), x, 0);
    var p := Pow2(k - 1);
    PowStep(k - 1);
    MulSwap(x, 2, p);
    MulAssoc(x, 2, p);
    DivModUnique(x * Pow2(k), p, 2 * x, 0);
  }

  lemma ThereAndBack(x: int, k: nat, y: int)
    requires k > 0 && y == x * Pow2(k)
    ensures y / Pow2(k) == x && y / Pow2(k - 1) % 2 == 0
  {
    hide Asr, Pow2;
    AsrUndoes(x, k);
  }

  /** A left arithmetic shift that did not overflow is undone by the right shift of the same distance, with C clear. */
  lemma AshThereAndBack(s: Ke, k: nat)
    requires 1 <= k <= 31 && !Overflow(Ash(s, k))
    ensures var r := Ash(Ash(s, k), 64 - k); r.ac == s.ac && r.mq == s.mq && !r.sr.c && !Overflow(r)
  {
    hide Ash, Pair, Overflow, Pow2, Asr;
    AshMeans(s, k);
    AshMeans(Ash(s, k), 64 - k);
    ThereAndBack(Pair(s), k, Pair(Ash(s, k)));
    PairInjective(s, Ash(Ash(s, k), 64 - k));
  }

  // --- the registers --------------------------------------------------------------------------

  datatype Register = DivReg | AcReg | MqReg | MulReg | ScSrReg | NorReg | LshReg | AshReg

  datatype Width = WholeWord | LowByte | HighByte

  /** A host write of a register, of all of it or of one byte. */
  datatype Access = Access(reg: Register, v: Word, width: Width)

  function Accessed(s: Ke, a: Access): Ke {
    var w := Written(a.v, a.width == LowByte);
    match a.reg
    case DivReg => Div(s, w)
    case AcReg => LoadAc(s, w)
    case MqReg => LoadMq(s, w)
    case MulReg => Mul(s, w)
    case ScSrReg => if a.width == WholeWord then LoadScSr(s, a.v) else s
    case NorReg => Nor(s)
    case LshReg => Lsh(s, a.v)
    case AshReg => Ash(s, a.v)
  }

  function Run(accesses: seq<Access>): Ke {
    if accesses == [] then Ke(0, 0, NO_FLAGS, 0)
    else Accessed(Run(accesses[..|accesses| - 1]), accesses[|accesses| - 1])
  }

  /** The derived bits say what AC and MQ hold. */
  predicate Published(s: Ke) { s == Publish(s) }

  lemma {:induction false} NorPublished(ac: Word, mq: Word, sc: nat)
    requires sc <= 31
    ensures Published(NorLoop(ac, mq, sc)) && NorLoop(ac, mq, sc).sc <= 31
    decreases 31 - sc
  {
    hide Normal, ShiftedAc, ShiftedMq;
    if sc < 31 && !Normal(ac, mq) { NorPublished(ShiftedAc(ac, mq), ShiftedMq(mq), sc + 1); }
  }

  lemma DivPublished(s: Ke, v: Word)
    ensures Published(Div(s, v)) && Div(s, v).sc <= 15
  {
    hide DivRefused, TruncDiv, TruncRem, Operand, SignExtended;
  }

  lemma LongPublished(t: int, v: bool, c: bool)
    ensures Published(FromLong(t, v, c)) && FromLong(t, v, c).sc == 0
  {
  }

  lemma ShiftsPublished(s: Ke, v: Word)
    ensures Published(Lsh(s, v)) && Lsh(s, v).sc == 0 && Published(Ash(s, v)) && Ash(s, v).sc == 0
  {
    hide FromLong, Operand, OrHigh, Pow2, Asr, Lsr, SignFill, Odd, Wrap32, Unsigned32;
    forall t, v, c ensures Published(FromLong(t, v, c)) && FromLong(t, v, c).sc == 0 { LongPublished(t, v, c); }
  }

  lemma LoadsPublished(s: Ke, v: Word)
    ensures Published(LoadAc(s, v)) && LoadAc(s, v).sc == s.sc && Published(LoadMq(s, v)) && LoadMq(s, v).sc == s.sc
  {
  }

  lemma AccessPublishes(s: Ke, a: Access)
    requires s.sc < 0x100
    ensures var r := Accessed(s, a); r.sc < 0x100 && (a.reg != ScSrReg ==> Published(r))
  {
    hide Div, FromLong, Lsh, Ash, NorLoop, LoadAc, LoadMq, Published, Written, SignExtended;
    var w := Written(a.v, a.width == LowByte);
    DivPublished(s, w);
    LongPublished(SignExtended(s.mq) * SignExtended(w), false, false);
    ShiftsPublished(s, a.v);
    LoadsPublished(s, w);
    NorPublished(s.ac, s.mq, 0);
  }

  /** What each derived bit says: zero MQ, zero AC, AC all ones, a zero pair, and a pair that MQ alone represents. */
  predicate Derived(s: Ke) {
    && (s.sr.mqz <==> s.mq == 0) && (s.sr.acz <==> s.ac == 0) && (s.sr.acm1 <==> s.ac == 0xFFFF)
    && (s.sr.z <==> Pair(s) == 0) && (s.sr.sxt <==> -0x8000 <= Pair(s) < 0x8000)
  }

  lemma PublishedDerived(s: Ke)
    requires Published(s)
    ensures Derived(s)
  {
    hide Pair;
    DerivedBits(s);
  }

  /** After any writes the step count fits its byte, so `ScSrRoundTrip` applies; and from the last operation or load on
  the derived bits say what AC and MQ hold, until SC/SR itself is written. */
  lemma RunPublishes(accesses: seq<Access>)
    ensures Run(accesses).sc < 0x100
    ensures accesses != [] && accesses[|accesses| - 1].reg != ScSrReg ==> Derived(Run(accesses))
  {
    hide Run, Published, Derived;
    RunDerives(accesses);
    if accesses != [] && accesses[|accesses| - 1].reg != ScSrReg { PublishedDerived(Run(accesses)); }
  }

  lemma {:induction false} RunDerives(accesses: seq<Access>)
    ensures Run(accesses).sc < 0x100
    ensures accesses != [] && accesses[|accesses| - 1].reg != ScSrReg ==> Published(Run(accesses))
  {
    hide Accessed, Publish;
    if accesses != [] {
      var k := |accesses| - 1;
      RunDerives(accesses[..k]);
      AccessPublishes(Run(accesses[..k]), accesses[k]);
    }
  }

  /** A program that saves the SC/SR word at any point of a run and writes it back later, AC and MQ being what they
  were, has the status it had, but for the derived bits, which the next operation or load brings up to date; byte
  writes of SC/SR do nothing. */
  lemma SavedStatus(before: seq<Access>, t: Ke)
    ensures var s := Run(before);
            var r := Accessed(t, Access(ScSrReg, ScSrWord(s), WholeWord));
            && ScSrWord(s) < 0x1_0000 && r.ac == t.ac && r.mq == t.mq && r.sc == s.sc
            && r.sr.nxv == s.sr.nxv && r.sr.n == s.sr.n && r.sr.c == s.sr.c
    ensures forall v, w :: w != WholeWord ==> Accessed(t, Access(ScSrReg, v, w)) == t
  {
    hide Run, ScSrWord, Publish;
    RunDerives(before);
    ScSrRoundTrip(Run(before), t);
  }

  // --- the device ----------------------------------------------------------------------------

  class Element {
    var ac: Word
    var mq: Word
    var sr: Flags
    var sc: nat

    function State(): Ke
      reads this
    {
      Ke(ac, mq, sr, sc)
    }

    constructor ()
      ensures State() == Ke(0, 0, NO_FLAGS, 0)
    {
      ac, mq, sr, sc := 0, 0, NO_FLAGS, 0;
    }

    method UpdateScSr()
      modifies this`sr
      ensures State() == Publish(old(State()))
    {
      sr := sr.(sxt := false, z := false, mqz := false, acz := false, acm1 := false);
      if mq == 0 { sr := sr.(mqz := true); }
      if ac == 0 {
        sr := sr.(acz := true);
        if !Negative(mq) { sr := sr.(sxt := true); }
        if mq == 0 { sr := sr.(z := true); }
      }
      if ac == 0xFFFF {
        sr := sr.(acm1 := true);
        if Negative(mq) { sr := sr.(sxt := true); }
      }
    }

    method WriteDiv(v: Word, byteLow: bool)
      modifies this
      ensures State() == Div(old(State()), Written(v, byteLow))
    {
      hide OrHigh, TruncDiv, TruncRem, Pow2;
      var d := SignExtended(Written(v, byteLow));
      sr := NO_FLAGS;
      var t := Operand(ac, mq);
      if DivRefused(t, d) {
        var same := Negative(ac) == (d < 0);
        ac := (2 * ac + mq / 0x8000) % 0x1_0000;
        ac := (if same then ac - d else ac + d) % 0x1_0000;
        mq := (2 * mq + (if same then 1 else 0)) % 0x1_0000;
        if Negative(ac) == (d < 0) { sr := sr.(c := true); }
        sc := 15;
        sr := sr.(nxv := true);
      } else {
        sc := 0;
        var quo := TruncDiv(t, d);
        mq := quo % 0x1_0000;
        ac := TruncRem(t, d) % 0x1_0000;
        if quo > 32767 || quo < -32768 { sr := sr.(nxv := true); }
      }
      if Negative(mq) { sr := sr.(n := !sr.n, nxv := !sr.nxv); }
      UpdateScSr();
    }

    method WriteAc(v: Word, byteLow: bool)
      modifies this
      ensures State() == LoadAc(old(State()), Written(v, byteLow))
    {
      hide Publish;
      ac := Written(v, byteLow);
      UpdateScSr();
    }

    method WriteMq(v: Word, byteLow: bool)
      modifies this
      ensures State() == LoadMq(old(State()), Written(v, byteLow))
    {
      hide Publish;
      mq := Written(v, byteLow);
      if Negative(mq) { ac := 0xFFFF; } else { ac := 0; }
      UpdateScSr();
    }

    method WriteMul(v: Word, byteLow: bool)
      modifies this
      ensures State() == Mul(old(State()), Written(v, byteLow))
    {
      hide Publish, SignExtended, Written;
      sc := 0;
      var t := SignExtended(mq) * SignExtended(Written(v, byteLow));
      ac := (t / 0x1_0000) % 0x1_0000;
      mq := t % 0x1_0000;
      if Negative(ac) { sr := NO_FLAGS.(n := true, nxv := true); } else { sr := NO_FLAGS; }
      UpdateScSr();
    }

    method WriteScSr(v: Word)
      modifies this
      ensures State() == LoadScSr(old(State()), v)
    {
      var high := v / 0x100;
      sr := NO_FLAGS.(nxv := high >= 0x80, n := high % 0x80 >= 0x40, c := high % 2 == 1);
      sc := v % 0x100;
    }

    method WriteNor()
      modifies this
      ensures State() == Nor(old(State()))
    {
      hide Publish, Normal, ShiftedAc, ShiftedMq;
      sc := 0;
      while sc < 31
        invariant 0 <= sc <= 31
        invariant NorLoop(ac, mq, sc) == Nor(old(State()))
      {
        if Normal(ac, mq) { break; }
        ac, mq := ShiftedAc(ac, mq), ShiftedMq(mq);
        sc := sc + 1;
      }
      sr := if Negative(ac) then NO_FLAGS.(n := true, nxv := true) else NO_FLAGS;
      UpdateScSr();
    }

    /** Puts a shift's 32-bit value back into AC and MQ and completes the status. */
    method PutLong(t: int)
      modifies this
      requires !sr.n && sc == 0 && sr == NO_FLAGS.(nxv := sr.nxv, c := sr.c)
      ensures State() == FromLong(t, old(sr.nxv), old(sr.c))
    {
      hide Publish;
      ac := (t / 0x1_0000) % 0x1_0000;
      mq := t % 0x1_0000;
      if Negative(ac) { sr := sr.(n := !sr.n, nxv := !sr.nxv); }
      UpdateScSr();
    }

    method WriteLsh(v: Word)
      modifies this
      ensures State() == Lsh(old(State()), v)
    {
      hide Publish, OrHigh, Pow2, FromLong, Operand, Asr, Lsr, SignFill, Odd, Wrap32, Unsigned32;
      sc, sr := 0, NO_FLAGS;
      var k := v % 64;
      if k == 0 {
        if Negative(ac) { sr := sr.(n := !sr.n, nxv := !sr.nxv); }
        UpdateScSr();
        return;
      }
      var t := Operand(ac, mq);
      if k < 32 {
        var sout := SignFill(Asr(t, 32 - k), k, Negative(ac));
        t := Wrap32(Unsigned32(t) * Pow2(k));
        if sout != (if t < 0 then -1 else 0) { sr := sr.(nxv := true); }
        if Odd(sout) { sr := sr.(c := true); }
      } else {
        if Odd(Asr(t, 63 - k)) { sr := sr.(c := true); }
        t := if k != 32 then Lsr(t, 64 - k) else 0;
      }
      PutLong(t);
    }

    method WriteAsh(v: Word)
      modifies this
      ensures State() == Ash(old(State()), v)
    {
      hide Publish, OrHigh, Pow2, FromLong, Operand, Asr, Lsr, SignFill, Odd;
      sc, sr := 0, NO_FLAGS;
      var k := v % 64;
      if k == 0 {
        if Negative(ac) { sr := sr.(n := !sr.n, nxv := !sr.nxv); }
        UpdateScSr();
        return;
      }
      var t := Operand(ac, mq);
      var negative := Negative(ac);
      if k < 32 {
        var sout := SignFill(Asr(t, 31 - k), k, negative);
        t := (if t < 0 then -0x8000_0000 else 0) + (t * Pow2(k)) % 0x8000_0000;
        if sout != (if t < 0 then -1 else 0) { sr := sr.(nxv := true); }
        if Odd(sout) { sr := sr.(c := true); }
      } else {
        if Odd(Asr(t, 63 - k)) { sr := sr.(c := true); }
        t := if k != 32 then SignFill(Lsr(t, 64 - k), k - 32, negative) else if negative then -1 else 0;
      }
      PutLong(t);
    }

    /** `write_register`. */
    method WriteRegister(a: Access)
      modifies this
      ensures State() == Accessed(old(State()), a)
    {
      hide Div, Mul, Nor, Lsh, Ash, LoadAc, LoadMq, Written;
      var byteLow := a.width == LowByte;
      match a.reg {
        case DivReg => WriteDiv(a.v, byteLow);
        case AcReg => WriteAc(a.v, byteLow);
        case MqReg => WriteMq(a.v, byteLow);
        case MulReg => WriteMul(a.v, byteLow);
        case ScSrReg => if a.width == WholeWord { WriteScSr(a.v); }
        case NorReg => WriteNor();
        case LshReg => WriteLsh(a.v);
        case AshReg => WriteAsh(a.v);
      }
    }
  }
}
