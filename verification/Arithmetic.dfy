/** 64-bit division built from the x86 64-by-32-bit DIVL instruction: lib/arithmetic.c.

    Machine integers are integers in range; every operation that can leave its range is
    followed by the conversion the C code performs. */
module Arithmetic {
  import opened Common

  const B31: int := 0x8000_0000
  const B32: int := 0x1_0000_0000
  const B63: int := 0x8000_0000_0000_0000
  const B64: int := 0x1_0000_0000_0000_0000

  /** The outcome of code that may divide by zero or overflow a quotient register. */
  datatype Outcome = Value(value: int) | Trap

  function U32(x: int): nat { x % B32 }

  function U64(x: int): nat { x % B64 }

  function I64(x: int): int { (x + B63) % B64 - B63 }

  // ---- The code -------------------------------------------------------------------------

  /** The number of doublings that bring x into the upper half of 32 bits. */
  function LeadingZeros(x: nat): nat
    requires 0 < x < B32
    decreases B32 - x
  {
    if x >= B31 then 0 else 1 + LeadingZeros(2 * x)
  }

  /** DIVL: a 32-bit quotient, or a divide error. */
  function Divl(n: nat, d: nat): Outcome {
    if d == 0 || n / d >= B32 then Trap else Value(n / d)
  }

  /** The branch of udiv64() for a divisor that fits 32 bits, on the halves of the dividend. */
  function DivideDigits(n1: nat, n0: nat, d0: nat): Outcome {
    if d0 == 0 then Trap else LowDigit(U64(B32 * (n1 % d0) + n0), n1 / d0, d0)
  }

  /** The low digit m / d of the quotient, below its high digit t. */
  function LowDigit(m: nat, t: nat, d: nat): Outcome {
    match Divl(m, d)
    case Trap => Trap
    case Value(q) => Value(U64(q + B32 * t))
  }

  /** The estimate of the quotient from v, the top 32 bits of the divisor shifted left by s. */
  function EstimateBy(n: nat, v: nat, s: nat): Outcome
    requires s <= 31
  {
    match Divl(n / 2, v)
    case Trap => Trap
    case Value(q) => Value(q / Pow2(31 - s))
  }

  function Estimate(n: nat, d: nat): Outcome
    requires 0 < U32(d / B32)
  {
    var s := LeadingZeros(U32(d / B32));
    LeadingZerosBound(U32(d / B32));
    EstimateBy(n, U64(d * Pow2(s)) / B32, s)
  }

  /** The last line of udiv64(): the estimate or one less. */
  function Corrected(n: nat, d: nat, q: int): int {
    if U64(n - U64(q - 1) * d) < d then U64(q - 1) else q
  }

  function Udiv64(n: nat, d: nat): Outcome {
    if d / B32 == 0 then DivideDigits(U32(n / B32), U32(n), U32(d))
    else if n < d then Value(0)
    else if U32(d / B32) == 0 then Trap
    else
      match Estimate(n, d)
      case Trap => Trap
      case Value(q) => Value(Corrected(n, d, q))
  }

  /** What is left of n after taking away w, in 64 bits and then returned in 32. */
  function Remainder32(n: int, w: int): nat {
    U32(U64(n - U64(w)))
  }

  function Umod64(n: nat, d: nat): Outcome {
    match Udiv64(n, d)
    case Trap => Trap
    case Value(q) => Value(Remainder32(n, d * q))
  }

  /** x >= 0 ? (uint64_t) x : -(uint64_t) x */
  function Magnitude(x: int): nat {
    if x >= 0 then U64(x) else U64(0 - U64(x))
  }

  /** sdiv64() after its division. */
  function Signed(n: int, d: int, q: int): int {
    if (n < 0) == (d < 0) then I64(q) else I64(-I64(q))
  }

  function Sdiv64(n: int, d: int): Outcome {
    match Udiv64(Magnitude(n), Magnitude(d))
    case Trap => Trap
    case Value(q) => Value(Signed(n, d, q))
  }

  function SignedRemainder32(n: int, w: int): int {
    Int32(I64(n - I64(w)))
  }

  function Smod64(n: int, d: int): Outcome {
    match Sdiv64(n, d)
    case Trap => Trap
    case Value(q) => Value(SignedRemainder32(n, d * q))
  }

  // ---- Products and quotients -----------------------------------------------------------

  lemma MulLt(a: int, b: int, c: int)
    ensures a < b && 0 < c ==> a * c < b * c
  {
  }

  lemma MulAssoc(a: int, b: int, c: int)
    ensures a * b * c == a * (b * c) && a * b * c == a * c * b
  {
  }

  lemma MulAdd(a: int, b: int, c: int)
    ensures (a + b) * c == a * c + b * c
  {
  }

  predicate IsQuotient(n: int, d: int, q: int) {
    d > 0 && q * d <= n < q * d + d
  }

  lemma QuotientExists(n: int, d: int)
    requires d > 0
    ensures IsQuotient(n, d, n / d)
  {
  }

  lemma QuotientOrder(n: int, d: int, q: int, b: int)
    requires IsQuotient(n, d, q)
    ensures n < b * d ==> q < b
    ensures b * d <= n ==> b <= q
  {
    MulLe(b, q, d);
    MulLe(q + 1, b, d);
    MulAdd(q, 1, d);
  }

  lemma QuotientUnique(n: int, d: int, q: int)
    requires IsQuotient(n, d, q)
    ensures n / d == q
  {
    QuotientExists(n, d);
    QuotientOrder(n, d, n / d, q);
    QuotientOrder(n, d, n / d, q + 1);
    MulAdd(q, 1, d);
  }

  /** Dividing twice is dividing by the product. */
  lemma QuotientTwice(n: int, a: int, b: int, x: int, q: int)
    requires IsQuotient(n, a, x) && IsQuotient(x, b, q)
    ensures IsQuotient(n, a * b, q)
  {
    MulLt(0, a, b);
    MulLe(q * b, x, a);
    MulLe(x + 1, q * b + b, a);
    MulAssoc(q, a, b);
    MulAdd(q * b, b, a);
    MulAdd(x, 1, a);
  }

  lemma {:induction false} Pow2Adds(a: nat, b: nat)
    ensures Pow2(a + b) == Pow2(a) * Pow2(b)
  {
    if a > 0 {
      Pow2Adds(a - 1, b);
      MulAssoc(2, Pow2(a - 1), Pow2(b));
      assert Pow2(a + b) == 2 * Pow2(a - 1 + b);
    }
  }

  lemma ShiftWidths()
    ensures Pow2(2) == 4 && Pow2(4) == 16 && Pow2(8) == 256 && Pow2(16) == 65536
  {
    assert Pow2(4) == 16;
    Pow2Adds(4, 4);
    Pow2Adds(8, 8);
  }

  lemma Pow2At32()
    ensures Pow2(32) == B32
  {
    ShiftWidths();
    Pow2Adds(16, 16);
  }

  // ---- nlz() ----------------------------------------------------------------------------

  lemma {:induction false} LeadingZerosNormalizes(x: nat)
    requires 0 < x < B32
    ensures B31 <= x * Pow2(LeadingZeros(x)) < B32
    decreases B32 - x
  {
    if x < B31 {
      LeadingZerosNormalizes(2 * x);
      MulAssoc(x, 2, Pow2(LeadingZeros(2 * x)));
    }
  }

  /** LeadingZeros is the only number that normalizes x. */
  lemma {:induction false} LeadingZerosUnique(x: nat, n: nat)
    requires 0 < x < B32 && B31 <= x * Pow2(n) < B32
    ensures n == LeadingZeros(x)
    decreases n
  {
    if n > 0 {
      MulAssoc(x, 2, Pow2(n - 1));
      MulLe(1, Pow2(n - 1), 2 * x);
      LeadingZerosUnique(2 * x, n - 1);
    }
  }

  lemma LeadingZerosBound(x: nat)
    requires 0 < x < B32
    ensures LeadingZeros(x) <= 31
  {
    var n := LeadingZeros(x);
    LeadingZerosNormalizes(x);
    MulLe(1, x, Pow2(n));
    Pow2Below32(n);
  }

  lemma Pow2Below32(n: nat)
    ensures Pow2(n) < B32 ==> n <= 31
  {
    Pow2At32();
    if n >= 32 {
      Pow2Adds(32, n - 32);
      MulLe(1, Pow2(n - 32), Pow2(32));
    }
  }

  /** One step of nlz(): doubling away k of the zero bits at the top. */
  lemma ShiftOut(x: nat, k: nat, y: nat)
    requires 0 < x < B32 && y == x * Pow2(k) && 0 < y < B32
    ensures LeadingZeros(x) == k + LeadingZeros(y)
  {
    var m := LeadingZeros(y);
    LeadingZerosNormalizes(y);
    Pow2Adds(k, m);
    MulAssoc(x, Pow2(k), Pow2(m));
    LeadingZerosUnique(x, k + m);
  }

  /** if (x <= limit) { n += k; x <<= k; } where factor is 2^k and prev is the previous limit. */
  method NlzRound(x: nat, n: nat, prev: nat, limit: nat, k: nat, factor: nat, ghost x0: nat) returns (n': nat, x': nat)
    requires prev < x < B32 && 0 < x0 < B32 && LeadingZeros(x0) == n + LeadingZeros(x)
    requires factor == Pow2(k) && (prev + 1) * factor == limit + 1 && (limit + 1) * factor == B32
    ensures limit < x' < B32 && LeadingZeros(x0) == n' + LeadingZeros(x')
  {
    hide LeadingZeros, Pow2;
    n', x' := n, x;
    if x <= limit {
      RoundFits(x, prev, limit, factor);
      ShiftOut(x, k, x * factor);
      n', x' := n + k, U32(x * factor);
    }
  }

  lemma RoundFits(x: nat, prev: nat, limit: nat, factor: nat)
    requires prev < x <= limit && (prev + 1) * factor == limit + 1 && (limit + 1) * factor == B32
    ensures limit < x * factor < B32 && U32(x * factor) == x * factor
  {
    MulLe(prev + 1, x, factor);
    MulLe(x + 1, limit + 1, factor);
    MulAdd(x, 1, factor);
    assert factor > 0;
  }

  lemma NlzLast(x: nat)
    requires 0x3FFF_FFFF < x < B32
    ensures LeadingZeros(x) == if x <= 0x7FFF_FFFF then 1 else 0
  {
  }

  /** nlz(): the binary search for the number of leading zero bits. */
  method Nlz(x0: nat) returns (n: nat)
    requires 0 < x0 < B32
    ensures n == LeadingZeros(x0)
  {
    var x := x0;
    ShiftWidths();
    n, x := NlzRound(x, 0, 0, 0x0000_FFFF, 16, 65536, x0);
    n, x := NlzRound(x, n, 0x0000_FFFF, 0x00FF_FFFF, 8, 256, x0);
    n, x := NlzRound(x, n, 0x00FF_FFFF, 0x0FFF_FFFF, 4, 16, x0);
    n, x := NlzRound(x, n, 0x0FFF_FFFF, 0x3FFF_FFFF, 2, 4, x0);
    NlzLast(x);
    if x <= 0x7FFF_FFFF {
      n := n + 1;
    }
  }

  // ---- Division by a divisor that fits 32 bits ------------------------------------------

  lemma SmallU64(x: int)
    requires 0 <= x < B64
    ensures U64(x) == x
  {
  }

  /** Long division, one digit at a time: the proof given in the comment of udiv64(). */
  lemma LongDivision(n: int, d: int, n0: int, t: int, r: int, q: int)
    requires 0 <= r < d && 0 <= n0 < B32 && n == B32 * (t * d + r) + n0 && IsQuotient(B32 * r + n0, d, q)
    ensures q < B32 && IsQuotient(n, d, q + B32 * t)
  {
    MulLe(r + 1, d, B32);
    QuotientOrder(B32 * r + n0, d, q, B32);
    MulAdd(q, B32 * t, d);
    MulAssoc(B32, t, d);
  }

  lemma LowDigitIs(m: nat, t: nat, d: nat, q: nat)
    requires IsQuotient(m, d, q) && q < B32 && q + B32 * t < B64
    ensures LowDigit(m, t, d) == Value(q + B32 * t)
  {
    QuotientUnique(m, d, q);
    SmallU64(q + B32 * t);
  }

  lemma QuotientSmall(n: int, d: int, q: int)
    requires IsQuotient(n, d, q) && 0 <= n
    ensures 0 <= q <= n
  {
    QuotientOrder(n, d, q, 0);
    QuotientOrder(n, d, q, n + 1);
    MulLe(1, d, n + 1);
  }

  lemma DigitsCombine(n: nat, n0: nat, d: nat, t: nat, r: nat)
    requires r < d < B32 && n0 < B32 && n == B32 * (t * d + r) + n0 && n < B64
    ensures LowDigit(U64(B32 * r + n0), t, d) == Value(n / d)
  {
    var m := B32 * r + n0;
    var q := m / d;
    QuotientExists(m, d);
    QuotientSmall(m, d, q);
    LongDivision(n, d, n0, t, r, q);
    QuotientUnique(n, d, q + B32 * t);
    QuotientSmall(n, d, q + B32 * t);
    SmallU64(m);
    LowDigitIs(m, t, d, q);
  }

  /** The small branch: DIVL cannot trap, and the digits combine to the quotient. */
  lemma DivideDigitsCorrect(n: nat, n1: nat, n0: nat, d: nat)
    requires n == B32 * n1 + n0 && n1 < B32 && n0 < B32 && 0 < d < B32
    ensures DivideDigits(n1, n0, d) == Value(n / d)
  {
    DigitsCombine(n, n0, d, n1 / d, n1 % d);
  }

  // ---- The normalized estimate ----------------------------------------------------------

  /** Two quotients of n by divisors e <= d are at most one apart if n (d - e) < d e. */
  lemma QuotientNear(n: int, d: int, e: int, q: int, p: int)
    requires IsQuotient(n, d, q) && IsQuotient(n, e, p) && e <= d && 0 <= n && n * (d - e) < d * e
    ensures q <= p <= q + 1
  {
    QuotientSmall(n, d, q);
    MulLe(e, d, q);
    QuotientOrder(n, e, p, q);
    QuotientsApart(n, d, e, q);
    QuotientOrder(n, e, p, q + 2);
  }

  lemma QuotientsApart(n: int, d: int, e: int, q: int)
    requires 0 < e <= d && n < q * d + d
    ensures (q + 2) * e <= n ==> n * (d - e) >= d * e
  {
    MulLe((q + 2) * e, n, d);
    MulLe(n, q * d + d, e);
    assert n * (d - e) == n * d - n * e;
    assert (q + 2) * e * d == q * (d * e) + 2 * (d * e);
    assert (q * d + d) * e == q * (d * e) + d * e;
  }

  /** A multiple of z below z * p is at least z below it. */
  lemma MultipleGap(a: int, z: int, p: int)
    requires 0 < z && a * z < z * p
    ensures a * z + z <= z * p
  {
    MulLe(p, a, z);
    MulLe(a + 1, p, z);
    MulAdd(a, 1, z);
  }

  /** Shifting d left by s bits and dropping 32 drops the low 32 - s bits of d. */
  lemma ShiftedTop(d: int, z: int, p: int, v: int)
    requires 0 < z && z * p == B32 && IsQuotient(d, p, v)
    ensures IsQuotient(d * z, B32, v)
  {
    MulLe(v * p, d, z);
    MulLt(d, v * p + p, z);
    MulAssoc(v, p, z);
    MulAdd(v * p, p, z);
  }

  /** The shift loses nothing off the top, and sets the top bit. */
  lemma ShiftedRange(d: int, z: int, p: int, d1: int)
    requires 0 < z && z * p == B32 && IsQuotient(d, B32, d1) && B31 <= d1 * z < B32
    ensures B31 * B32 <= d * z < B64
  {
    MultipleGap(d1, z, p);
    MulLt(d, d1 * B32 + B32, z);
    MulLe(d1 * B32, d, z);
    MulAssoc(d1, B32, z);
    MulAdd(d1 * B32, B32, z);
  }

  /** With p = 2^(32 - s), normalization leaves v = d / p, whose top bit is set. */
  lemma Normalized(d: nat, s: nat)
    requires B32 <= d < B64 && s == LeadingZeros(d / B32) && s <= 31
    ensures var v := d / Pow2(32 - s);
            U64(d * Pow2(s)) / B32 == v && B31 <= v && IsQuotient(d, Pow2(32 - s), v)
  {
    var z, p := Pow2(s), Pow2(32 - s);
    LeadingZerosNormalizes(d / B32);
    Pow2At32();
    Pow2Adds(s, 32 - s);
    QuotientExists(d, B32);
    ShiftedRange(d, z, p, d / B32);
    QuotientExists(d, p);
    ShiftedTop(d, z, p, d / p);
    QuotientUnique(d * z, B32, d / p);
    QuotientOrder(d * z, B32, d / p, B31);
    SmallU64(d * z);
  }

  lemma QuarterSquare(p: int)
    ensures 4 * (p - 1) <= p * p
  {
    assert (p - 2) * (p - 2) == p * p - 4 * (p - 1);
    MulLe(0, p - 2, p - 2);
    MulLe(0, 2 - p, 2 - p);
  }

  lemma SquareLe(x: int, e: int, d: int)
    requires 0 <= x <= e <= d
    ensures x * x <= d * e
  {
    MulLe(x, e, x);
    MulLe(x, d, e);
  }

  /** (2^64 - 1) (p - 1) < (2^31 p)^2, because p - 1 <= p^2 / 4. */
  lemma ErrorSmall(n: int, d: int, e: int, p: int)
    requires 0 <= n < B64 && p >= 2 && B31 * p <= e <= d < e + p
    ensures n * (d - e) < d * e
  {
    MulLe(d - e, p - 1, n);
    MulLt(n, B64, p - 1);
    QuarterSquare(p);
    SquareLe(B31 * p, e, d);
    assert (B31 * p) * (B31 * p) == (B31 * B31) * (p * p);
  }

  /** The estimate is the quotient by v * 2^(32 - s), the divisor with its low bits cleared. */
  lemma EstimateIs(n: nat, v: nat, s: nat)
    requires n < B64 && B31 <= v && s <= 31
    ensures EstimateBy(n, v, s).Value? && IsQuotient(n, v * Pow2(32 - s), EstimateBy(n, v, s).value)
  {
    var h := Pow2(31 - s);
    var q1 := n / 2 / v;
    QuotientExists(n, 2);
    QuotientExists(n / 2, v);
    MulLe(B31, v, B32);
    QuotientOrder(n / 2, v, q1, B32);
    QuotientExists(q1, h);
    QuotientTwice(n / 2, v, h, q1, q1 / h);
    QuotientTwice(n, 2, v * h, n / 2, q1 / h);
    MulAssoc(v, 2, h);
  }

  lemma EstimateByNear(n: nat, d: nat, v: nat, s: nat)
    requires n < B64 && B31 <= v && s <= 31 && IsQuotient(d, Pow2(32 - s), v)
    ensures d > 0 && EstimateBy(n, v, s).Value? && n / d <= EstimateBy(n, v, s).value <= n / d + 1
  {
    var p := Pow2(32 - s);
    EstimateIs(n, v, s);
    MulLe(B31, v, p);
    ErrorSmall(n, d, v * p, p);
    QuotientExists(n, d);
    QuotientNear(n, d, v * p, n / d, EstimateBy(n, v, s).value);
  }

  lemma EstimateUnfolds(n: nat, d: nat, s: nat, v: nat)
    requires B32 <= d < B64 && s == LeadingZeros(d / B32) && s <= 31 && v == U64(d * Pow2(s)) / B32
    ensures Estimate(n, d) == EstimateBy(n, v, s)
  {
    assert U32(d / B32) == d / B32;
  }

  /** The estimate never traps and is the quotient or one more. */
  lemma EstimateNear(n: nat, d: nat)
    requires B32 <= d <= n < B64
    ensures Estimate(n, d).Value? && n / d <= Estimate(n, d).value <= n / d + 1
  {
    var s := LeadingZeros(d / B32);
    LeadingZerosBound(d / B32);
    Normalized(d, s);
    var v := d / Pow2(32 - s);
    EstimateUnfolds(n, d, s, v);
    EstimateByNear(n, d, v, s);
  }

  /** The final comparison picks the right one of the two candidates, without wrapping around. */
  lemma CorrectionRight(n: nat, d: nat, t: int, q: int)
    requires d <= n < B64 && IsQuotient(n, d, t) && t <= q <= t + 1
    ensures q >= 1 && Corrected(n, d, q) == t
  {
    QuotientOrder(n, d, t, 1);
    QuotientSmall(n, d, t);
    SmallU64(q - 1);
    MulAdd(q, -1, d);
    MulAdd(t, 1, d);
    MulLe(0, q - 1, d);
    SmallU64(n - (q - 1) * d);
  }

  lemma Udiv64Large(n: nat, d: nat)
    requires B32 <= d < B64 && n < B64
    ensures Udiv64(n, d) == Value(n / d)
  {
    QuotientExists(n, d);
    if n < d {
      QuotientUnique(n, d, 0);
    } else {
      EstimateNear(n, d);
      CorrectionRight(n, d, n / d, Estimate(n, d).value);
    }
  }

  lemma Udiv64Small(n: nat, d: nat)
    requires 0 < d < B32 && n < B64
    ensures Udiv64(n, d) == Value(n / d)
  {
    DivideDigitsCorrect(n, n / B32, n % B32, d);
    assert U32(n / B32) == n / B32 && U32(d) == d;
  }

  /** udiv64() is division, and no divide error occurs on the way. */
  lemma Udiv64Correct(n: nat, d: nat)
    requires n < B64 && 0 < d < B64
    ensures Udiv64(n, d) == Value(n / d)
  {
    if d < B32 {
      Udiv64Small(n, d);
    } else {
      Udiv64Large(n, d);
    }
  }

  // ---- Signed division ------------------------------------------------------------------

  function Abs(x: int): nat {
    if x >= 0 then x else -x
  }

  /** The quotient C asks for: rounded toward zero. */
  function TruncDiv(n: int, d: int): int
    requires d != 0
  {
    SignedQuotient(n, d, Abs(n) / Abs(d))
  }

  function SignedQuotient(n: int, d: int, q: int): int {
    if (n < 0) == (d < 0) then q else -q
  }

  function TruncMod(n: int, d: int): int
    requires d != 0
  {
    n - d * TruncDiv(n, d)
  }

  predicate IsI64(x: int) {
    -B63 <= x < B63
  }

  lemma MagnitudeIs(x: int)
    requires IsI64(x)
    ensures Magnitude(x) == Abs(x)
  {
  }

  lemma SignedIs(n: int, d: int, q: int)
    requires 0 <= q <= B63
    ensures Signed(n, d, q) == I64(SignedQuotient(n, d, q))
  {
  }

  lemma Sdiv64Value(n: int, d: int)
    requires IsI64(n) && IsI64(d) && d != 0
    ensures Sdiv64(n, d) == Value(I64(TruncDiv(n, d)))
  {
    MagnitudeIs(n);
    MagnitudeIs(d);
    Udiv64Correct(Abs(n), Abs(d));
    QuotientExists(Abs(n), Abs(d));
    QuotientSmall(Abs(n), Abs(d), Abs(n) / Abs(d));
    SignedIs(n, d, Abs(n) / Abs(d));
  }

  lemma SignedQuotientFits(n: int, d: int, q: int)
    requires IsI64(n) && IsQuotient(Abs(n), Abs(d), q)
    ensures -B63 <= SignedQuotient(n, d, q) <= B63
    ensures IsI64(SignedQuotient(n, d, q)) <==> !(n == -B63 && d == -1)
  {
    QuotientSmall(Abs(n), Abs(d), q);
    QuotientOrder(Abs(n), Abs(d), q, B63);
    MulLe(2, Abs(d), B63);
  }

  lemma I64Fixes(x: int)
    requires -B63 <= x <= B63
    ensures I64(x) == x <==> IsI64(x)
  {
  }

  /** sdiv64() truncates toward zero, except that the one quotient that does not fit wraps around. */
  lemma Sdiv64CorrectIff(n: int, d: int)
    requires IsI64(n) && IsI64(d) && d != 0
    ensures Sdiv64(n, d) == Value(TruncDiv(n, d)) <==> !(n == -B63 && d == -1)
  {
    Sdiv64Value(n, d);
    QuotientExists(Abs(n), Abs(d));
    SignedQuotientFits(n, d, Abs(n) / Abs(d));
    I64Fixes(TruncDiv(n, d));
  }

  // ---- Remainders -----------------------------------------------------------------------

  lemma Remainder32Is(n: int, w: int)
    requires 0 <= w <= n < B64
    ensures Remainder32(n, w) == U32(n - w)
  {
    SmallU64(w);
    SmallU64(n - w);
  }

  lemma ModIs(n: nat, d: nat)
    requires d > 0
    ensures 0 <= d * (n / d) <= n && n - d * (n / d) == n % d && n % d < d
  {
    QuotientExists(n, d);
    QuotientSmall(n, d, n / d);
    MulLe(0, n / d, d);
  }

  /** umod64() returns the remainder cut to 32 bits. */
  lemma Umod64Value(n: nat, d: nat)
    requires n < B64 && 0 < d < B64
    ensures Umod64(n, d) == Value(U32(n % d))
  {
    Udiv64Correct(n, d);
    ModIs(n, d);
    Remainder32Is(n, d * (n / d));
  }

  lemma U32Fixes(x: nat)
    ensures U32(x) == x <==> x < B32
  {
  }

  predicate UmodExact(n: nat, d: nat)
    requires d != 0
  {
    Umod64(n, d) == Value(n % d)
  }

  lemma UmodExactAt(n: nat, d: nat)
    requires n < B64 && 0 < d < B64
    ensures n % d < d && (UmodExact(n, d) <==> n % d < B32)
  {
    Umod64Value(n, d);
    ModIs(n, d);
    U32Fixes(n % d);
  }

  lemma ModOfSmaller(n: nat, d: nat)
    requires n < d
    ensures n % d == n
  {
    QuotientUnique(n, d, 0);
    ModIs(n, d);
  }

  /** umod64() is exact for every dividend exactly when the divisor is at most 2^32. */
  lemma Umod64ExactIff(d: nat)
    requires 0 < d < B64
    ensures (forall n: nat :: n < B64 ==> UmodExact(n, d)) <==> d <= B32
  {
    if d <= B32 {
      forall n: nat | n < B64
        ensures UmodExact(n, d)
      {
        UmodExactAt(n, d);
      }
    } else {
      UmodExactAt(B32, d);
      ModOfSmaller(B32, d);
    }
  }

  /** d times the signed quotient is the magnitude's multiple with the dividend's sign. */
  lemma SignedProduct(n: int, d: int, q: int)
    requires d != 0
    ensures d * SignedQuotient(n, d, q) == if n < 0 then 0 - q * Abs(d) else q * Abs(d)
  {
  }

  /** The remainder is smaller than the divisor and takes away no more than there is. */
  lemma TruncRange(n: int, d: int)
    requires d != 0
    ensures var w, r := d * TruncDiv(n, d), TruncMod(n, d);
            && Abs(r) < Abs(d) && (r > 0 ==> n > 0) && (r < 0 ==> n < 0)
            && (if n < 0 then n <= w <= 0 else 0 <= w <= n)
  {
    var q := Abs(n) / Abs(d);
    QuotientExists(Abs(n), Abs(d));
    QuotientSmall(Abs(n), Abs(d), q);
    MulLe(0, q, Abs(d));
    SignedProduct(n, d, q);
  }

  lemma SignedRemainder32Is(n: int, w: int)
    requires IsI64(n) && (if n < 0 then n <= w <= 0 else 0 <= w <= n)
    ensures SignedRemainder32(n, w) == Int32(n - w)
  {
    I64Fixes(w);
    I64Fixes(n - w);
  }

  lemma Smod64Overflow(n: int, d: int)
    requires n == -B63 && d == -1
    ensures Smod64(n, d) == Value(Int32(TruncMod(n, d)))
  {
    assert TruncDiv(n, d) == B63 && TruncMod(n, d) == 0;
    Sdiv64Value(n, d);
    OverflowCancels(n, d * I64(B63));
  }

  lemma OverflowCancels(n: int, w: int)
    requires n == -B63 && w == B63
    ensures I64(B63) == n && SignedRemainder32(n, w) == Int32(0)
  {
  }

  /** smod64() returns the remainder cut to 32 bits, also where sdiv64() overflows. */
  lemma Smod64Value(n: int, d: int)
    requires IsI64(n) && IsI64(d) && d != 0
    ensures Smod64(n, d) == Value(Int32(TruncMod(n, d)))
  {
    if n == -B63 && d == -1 {
      Smod64Overflow(n, d);
    } else {
      Sdiv64CorrectIff(n, d);
      TruncRange(n, d);
      SignedRemainder32Is(n, d * TruncDiv(n, d));
    }
  }

  lemma I32Fixes(x: int)
    ensures Int32(x) == x <==> -B31 <= x < B31
  {
  }

  predicate SmodExact(n: int, d: int)
    requires d != 0
  {
    Smod64(n, d) == Value(TruncMod(n, d))
  }

  lemma SmodExactAt(n: int, d: int)
    requires IsI64(n) && IsI64(d) && d != 0
    ensures Abs(TruncMod(n, d)) < Abs(d) && (SmodExact(n, d) <==> -B31 <= TruncMod(n, d) < B31)
  {
    Smod64Value(n, d);
    I32Fixes(TruncMod(n, d));
    TruncRange(n, d);
  }

  lemma TruncModOfSmaller(n: nat, d: int)
    requires n < Abs(d)
    ensures d != 0 && TruncMod(n, d) == n
  {
    QuotientUnique(n, Abs(d), 0);
  }

  /** smod64() is exact for every dividend exactly when the divisor's magnitude is at most 2^31. */
  lemma Smod64ExactIff(d: int)
    requires IsI64(d) && d != 0
    ensures (forall n :: IsI64(n) ==> SmodExact(n, d)) <==> Abs(d) <= B31
  {
    if Abs(d) <= B31 {
      forall n | IsI64(n)
        ensures SmodExact(n, d)
      {
        SmodExactAt(n, d);
      }
    } else {
      SmodExactAt(B31, d);
      TruncModOfSmaller(B31, d);
    }
  }
}
