/**
 64-bit division out of 64/32-bit division (lib/arithmetic.c).
 Words are nonnegative integers; every truncation and wrap-around of the C code
 is written out.  `Divl` has the trap condition of the DIVL instruction as its
 precondition, so that calling it proves that it does not trap.
 */
module Arithmetic {
  import opened Words

  const B: nat := 0x1_0000_0000             // 2^32
  const M: nat := 0x1_0000_0000_0000_0000   // 2^64
  const H: int := 0x8000_0000_0000_0000     // 2^63

  // Named operators: proofs below hide them to keep the arithmetic linear.

  function Times(x: int, y: int): int {
    x * y
  }

  function Quo(x: nat, d: nat): nat
    requires d > 0
  {
    x / d
  }

  function Res(x: nat, d: nat): nat
    requires d > 0
  {
    x % d
  }

  /** Truncation to 32 bits. */
  function Word(x: nat): (r: nat)
    ensures r < B && (x < B ==> r == x)
  {
    x % B
  }

  /** Unsigned 64-bit multiplication and subtraction. */
  function Mul64(x: nat, y: nat): (r: nat)
    ensures r < M && (Times(x, y) < M ==> r == Times(x, y))
  {
    Times(x, y) % M
  }

  function Sub64(x: nat, y: nat): (r: nat)
    requires x < M && y < M
    ensures r < M && (y <= x ==> r == x - y)
  {
    (x + M - y) % M
  }

  /** `x << n` without truncation. */
  function Shifted(x: nat, n: nat): nat {
    x * Pow2(n)
  }

  /** DIVL does not trap. */
  predicate Fits(n: nat, d: nat) {
    0 < d < B && n < M && Quo(n, d) < B
  }

  /** The x86 DIVL instruction: traps unless the quotient fits 32 bits. */
  function Divl(n: nat, d: nat): (q: nat)
    requires Fits(n, d)
    ensures q < B
  {
    Quo(n, d)
  }

  // ----- Basic facts

  lemma TimesMono(x: nat, y: nat, x': nat, y': nat)
    requires x <= x' && y <= y'
    ensures Times(x, y) <= Times(x', y')
  {
  }

  lemma TimesStrict(p: nat, x: nat, y: nat)
    requires p > 0 && x < y
    ensures Times(x, p) < Times(y, p)
  {
  }

  lemma TimesAdd(x: int, y: int, z: int)
    ensures Times(x + y, z) == Times(x, z) + Times(y, z)
    ensures Times(z, x + y) == Times(z, x) + Times(z, y)
  {
  }

  lemma TimesOne(x: int)
    ensures Times(1, x) == x == Times(x, 1) && Times(2, x) == 2 * x == Times(x, 2)
  {
  }

  lemma TimesSwap(x: int, y: int)
    ensures Times(x, y) == Times(y, x)
  {
  }

  lemma TimesAssoc(x: int, y: int, z: int)
    ensures Times(Times(x, y), z) == Times(x, Times(y, z))
  {
  }

  lemma TimesB(x: int)
    ensures Times(B, x) == B * x == Times(x, B)
  {
  }

  lemma TimesPositive(x: nat, y: nat)
    requires x > 0 && y > 0
    ensures Times(x, y) > 0
  {
  }

  lemma QuoRes(x: nat, d: nat)
    requires d > 0
    ensures x == Times(Quo(x, d), d) + Res(x, d) && Res(x, d) < d
  {
  }

  /** The quotient is the only q with q * d <= x < (q + 1) * d. */
  lemma QuoBounds(x: nat, d: nat)
    requires d > 0
    ensures Times(Quo(x, d), d) <= x < Times(Quo(x, d) + 1, d)
  {
    hide *;
    QuoRes(x, d);
    TimesAdd(Quo(x, d), 1, d);
    TimesOne(d);
  }

  lemma QuoAtLeast(x: nat, d: nat, q: nat)
    requires d > 0 && Times(q, d) <= x
    ensures q <= Quo(x, d)
  {
    hide *;
    QuoBounds(x, d);
    if q > Quo(x, d) { TimesMono(Quo(x, d) + 1, d, q, d); }
  }

  lemma QuoBelow(x: nat, d: nat, k: nat)
    requires d > 0 && x < Times(k, d)
    ensures Quo(x, d) < k
  {
    hide *;
    QuoBounds(x, d);
    if Quo(x, d) >= k { TimesMono(k, d, Quo(x, d), d); }
  }

  lemma QuoIs(x: nat, d: nat, q: nat)
    requires d > 0 && Times(q, d) <= x < Times(q + 1, d)
    ensures Quo(x, d) == q
  {
    hide *;
    QuoAtLeast(x, d, q);
    QuoBelow(x, d, q + 1);
  }

  lemma QuoQuo(a: nat, b: nat, c: nat)
    requires b > 0 && c > 0
    ensures Times(b, c) > 0 && Quo(Quo(a, b), c) == Quo(a, Times(b, c))
  {
    hide *;
    TimesPositive(b, c);
    var x := Quo(a, b);
    var y := Quo(x, c);
    QuoBounds(a, b);
    QuoBounds(x, c);
    Regroup(y, b, c);
    Regroup(y + 1, b, c);
    TimesMono(Times(y, c), b, x, b);
    TimesMono(x + 1, b, Times(y + 1, c), b);
    QuoIs(a, Times(b, c), y);
  }

  lemma Regroup(y: nat, b: nat, c: nat)
    ensures Times(y, Times(b, c)) == Times(Times(y, c), b) && Times(y, c) >= 0 && Times(b, c) >= 0
  {
    assert y * (b * c) == y * c * b;
  }

  // ----- Powers of two and nlz

  lemma {:induction false} Pow2Add(m: nat, n: nat)
    ensures Pow2(m + n) == Times(Pow2(m), Pow2(n))
  {
    if m == 0 {
      TimesOne(Pow2(n));
    } else {
      Pow2Add(m - 1, n);
      DoubleFirst(Pow2(m - 1), Pow2(n));
    }
  }

  lemma DoubleFirst(x: nat, y: nat)
    ensures Times(2 * x, y) == 2 * Times(x, y)
  {
  }

  lemma Pow2Values()
    ensures Pow2(0) == 1 && Pow2(1) == 2 && Pow2(2) == 4 && Pow2(4) == 16
    ensures Pow2(8) == 256 && Pow2(16) == 65536 && Pow2(31) == B / 2 && Pow2(32) == B
  {
    assert Pow2(2) == 2 * Pow2(1);
    assert Pow2(4) == 2 * Pow2(3);
    Pow2Add(4, 4);
    Pow2Add(8, 8);
    Pow2Add(16, 16);
    assert Pow2(32) == 2 * Pow2(31);
  }

  /** The number of leading zero bits of a nonzero 32-bit word. */
  function LeadingZeros(x: nat): (n: nat)
    requires 0 < x < B
    ensures n <= 31 && B / 2 <= Shifted(x, n) < B
    decreases B - x
  {
    if x >= B / 2 then
      ShiftZero(x);
      0
    else
      ShiftDouble(x, LeadingZeros(2 * x));
      LeadingZerosBound(2 * x, LeadingZeros(2 * x));
      1 + LeadingZeros(2 * x)
  }

  lemma ShiftZero(x: nat)
    ensures Shifted(x, 0) == x
  {
  }

  lemma ShiftDouble(x: nat, n: nat)
    ensures Shifted(2 * x, n) == Shifted(x, 1 + n)
  {
  }

  lemma ShiftIsTimes(x: nat, n: nat)
    ensures Shifted(x, n) == Times(x, Pow2(n))
  {
  }

  lemma LeadingZerosBound(x: nat, n: nat)
    requires x >= 2 && Shifted(x, n) < B
    ensures n <= 30
  {
    hide *;
    if n > 30 { ShiftedOut(x, n); }
  }

  lemma ShiftedOut(x: nat, n: nat)
    requires x >= 2 && n > 30
    ensures Shifted(x, n) >= B
  {
    hide Shifted, Times, Pow2;
    Pow2Grows(31, n);
    Pow2Values();
    ShiftIsTimes(x, n);
    TimesMono(2, Pow2(n), x, Pow2(n));
    TimesOne(Pow2(n));
  }

  /** Two shifts into the same top range are the same shift. */
  lemma LeadingZerosUnique(x: nat, m: nat, n: nat)
    requires B / 2 <= Shifted(x, m) < B && B / 2 <= Shifted(x, n) < B
    ensures m == n
  {
    hide Shifted;
    if m < n { ShiftedTwice(x, m, n); }
    if n < m { ShiftedTwice(x, n, m); }
  }

  lemma ShiftedTwice(x: nat, m: nat, n: nat)
    requires m < n
    ensures 2 * Shifted(x, m) <= Shifted(x, n)
  {
    hide Shifted, Times;
    Pow2Grows(m + 1, n);
    ShiftIsTimes(x, m);
    ShiftIsTimes(x, n);
    TimesMono(x, 2 * Pow2(m), x, Pow2(n));
    TimesSwap(x, 2 * Pow2(m));
    DoubleFirst(Pow2(m), x);
    TimesSwap(x, Pow2(m));
  }

  lemma ShiftStep(x0: nat, n: nat, x: nat, k: nat, c: nat)
    requires x == Shifted(x0, n) && c == Pow2(k)
    ensures x * c == Shifted(x0, n + k)
  {
    hide Pow2;
    Pow2Add(n, k);
    assert x0 * Pow2(n) * Pow2(k) == x0 * (Pow2(n) * Pow2(k));
  }

  /** `nlz`: five comparisons, each halving the range. */
  method Nlz(x0: nat) returns (n: nat)
    requires 0 < x0 < B
    ensures n == LeadingZeros(x0)
  {
    hide Pow2, Shifted, LeadingZeros, Word;
    Pow2Values();
    ShiftZero(x0);
    var x := x0;
    n := 0;
    if x <= 0x0000FFFF {
      ShiftStep(x0, n, x, 16, 0x10000);
      n := n + 16;
      x := Word(x * 0x10000);
    }
    assert x == Shifted(x0, n) && 0xFFFF < x < B;
    if x <= 0x00FFFFFF {
      ShiftStep(x0, n, x, 8, 0x100);
      n := n + 8;
      x := Word(x * 0x100);
    }
    assert x == Shifted(x0, n) && 0xFFFFFF < x < B;
    if x <= 0x0FFFFFFF {
      ShiftStep(x0, n, x, 4, 0x10);
      n := n + 4;
      x := Word(x * 0x10);
    }
    assert x == Shifted(x0, n) && 0xFFFFFFF < x < B;
    if x <= 0x3FFFFFFF {
      ShiftStep(x0, n, x, 2, 4);
      n := n + 2;
      x := Word(x * 4);
    }
    assert x == Shifted(x0, n) && 0x3FFFFFFF < x < B;
    if x <= 0x7FFFFFFF {
      ShiftStep(x0, n, x, 1, 2);
      n := n + 1;
    }
    LeadingZerosUnique(x0, n, LeadingZeros(x0));
  }

  // ----- udiv64

  /** The branch of `udiv64` for divisors below 2^32. */
  function Narrow(n: nat, d: nat): nat
    requires n < M && 0 < d < B
  {
    NarrowFits(n / B, n % B, d);
    Divl(B * Res(n / B, d) + n % B, d) + B * Quo(n / B, d)
  }

  /** The estimate `udiv64` makes for a divisor of 2^32 and more. */
  function Estimate(n: nat, d: nat): nat
    requires B <= d <= n < M
  {
    WideDivisor(n, d);
    var s := LeadingZeros(d / B);
    Quo(Divl(n / 2, Shifted(d, s) % M / B), Pow2(31 - s))
  }

  /** `udiv64`. */
  function Udiv64(n: nat, d: nat): nat
    requires n < M && 0 < d < M
  {
    if d / B == 0 then Narrow(n, d)
    else if n < d then 0
    else
      EstimateClose(n, d);
      var q := Estimate(n, d);
      if Sub64(n, Mul64(q - 1, d)) < d then q - 1 else q
  }

  /** `udiv64` is exact, for every 64-bit dividend and every nonzero 64-bit divisor. */
  lemma Udiv64Correct(n: nat, d: nat)
    requires n < M && 0 < d < M
    ensures Udiv64(n, d) == n / d
  {
    hide Udiv64, Quo;
    Udiv64IsQuo(n, d);
    QuoDef(n, d);
  }

  lemma Udiv64IsQuo(n: nat, d: nat)
    requires n < M && 0 < d < M
    ensures Udiv64(n, d) == Quo(n, d)
  {
    hide Narrow, Estimate, Sub64, Mul64, Times, Quo;
    if d / B == 0 {
      NarrowCorrect(n, d);
    } else if n < d {
      TimesOne(d);
      QuoBelow(n, d, 1);
    } else {
      EstimateClose(n, d);
      Correction(n, d, Estimate(n, d));
    }
  }

  lemma NarrowFits(n1: nat, n0: nat, d: nat)
    requires 0 < d < B && n0 < B
    ensures Fits(B * Res(n1, d) + n0, d)
  {
    hide Times, Quo, Res;
    QuoRes(n1, d);
    TimesB(d);
    QuoBelow(B * Res(n1, d) + n0, d, B);
  }

  /** A divisor below 2^32: the two partial quotients add up. */
  lemma NarrowCorrect(n: nat, d: nat)
    requires n < M && 0 < d < B
    ensures Narrow(n, d) == Quo(n, d)
  {
    hide Times, Quo, Res;
    var n1, n0 := n / B, n % B;
    NarrowFits(n1, n0, d);
    SplitTogether(n, n1, n0, d);
  }

  lemma SplitTogether(n: nat, n1: nat, n0: nat, d: nat)
    requires d > 0 && n == B * n1 + n0
    ensures Quo(B * Res(n1, d) + n0, d) + B * Quo(n1, d) == Quo(n, d)
  {
    hide Times, Quo, Res;
    var t := Quo(n1, d);
    var x := B * Res(n1, d) + n0;
    var q := Quo(x, d);
    QuoRes(n1, d);
    QuoBounds(x, d);
    Recombine(q, t, d);
    Recombine(q + 1, t, d);
    QuoIs(n, d, q + B * t);
  }

  lemma Recombine(q: nat, t: nat, d: nat)
    ensures Times(q + B * t, d) == Times(q, d) + B * Times(t, d)
  {
    hide Times;
    TimesAdd(q, B * t, d);
    TimesB(t);
    TimesB(Times(t, d));
    TimesAssoc(B, t, d);
  }

  /** The final comparison, made modulo 2^64, tells the two possible estimates apart. */
  lemma Correction(n: nat, d: nat, q: nat)
    requires 0 < d <= n < M && 1 <= q && Quo(n, d) <= q <= Quo(n, d) + 1
    ensures (if Sub64(n, Mul64(q - 1, d)) < d then q - 1 else q) == Quo(n, d)
  {
    hide Sub64, Mul64, Times, Quo;
    var k := Quo(n, d);
    QuoBounds(n, d);
    TimesAdd(k, 1, d);
    TimesAdd(q - 1, 1, d);
    TimesOne(d);
    TimesMono(0, 0, q - 1, d);
    ZeroTimes();
  }

  lemma ZeroTimes()
    ensures Times(0, 0) == 0
  {
  }

  // ----- The estimate for wide divisors

  /** The estimate is the quotient or one more. */
  lemma EstimateClose(n: nat, d: nat)
    requires B <= d <= n < M
    ensures Estimate(n, d) >= 1 && Quo(n, d) <= Estimate(n, d) <= Quo(n, d) + 1
  {
    hide Quo, Times, Shifted, Pow2, LeadingZeros, Fits;
    WideDivisor(n, d);
    TimesOne(d);
    QuoAtLeast(n, d, 1);
    var s := LeadingZeros(d / B);
    LowIsSame(Shifted(d, s));
  }

  lemma LowIsSame(x: nat)
    ensures x < M ==> x % M == x
  {
  }

  /** A divisor of 2^32 and more: DIVL does not trap, and the shifted result is close. */
  lemma WideDivisor(n: nat, d: nat)
    requires B <= d <= n < M
    ensures var s := LeadingZeros(d / B);
            && Shifted(d, s) < M
            && var v := Shifted(d, s) / B;
            && Fits(n / 2, v) && Fits(n / 2, Shifted(d, s) % M / B)
            && Quo(n, d) <= Quo(Quo(n / 2, v), Pow2(31 - s)) <= Quo(n, d) + 1
  {
    hide Quo, Times, Shifted, LeadingZeros, Fits;
    var s := LeadingZeros(d / B);
    var e := Pow2(32 - s);
    Normalised(d, s, e);
    var v := Shifted(d, s) / B;
    LowIsSame(Shifted(d, s));
    NoTrap(n, v);
    TimesSwap(Pow2(s + 1), e);
    Doubled(e, s);
    EstimateBound(n, d, v, Pow2(31 - s), e, Pow2(s + 1));
  }

  lemma NoTrap(n: nat, v: nat)
    requires n < M && B / 2 <= v < B
    ensures Fits(n / 2, v)
  {
    hide Quo, Times;
    TimesB(v);
    QuoBelow(n / 2, v, B);
  }

  lemma Doubled(e: nat, s: nat)
    requires Times(e, Pow2(s)) == B
    ensures Times(e, Pow2(s + 1)) == 2 * B
  {
    hide Times;
    TimesSwap(e, Pow2(s + 1));
    DoubleFirst(Pow2(s), e);
    TimesSwap(e, Pow2(s));
  }

  lemma EstimateBound(n: nat, d: nat, v: nat, h: nat, e: nat, k: nat)
    requires h > 0 && e == 2 * h && Times(e, k) == 2 * B
    requires B / 2 <= v && Times(v, e) <= d < Times(v, e) + e && d <= n < M
    ensures Quo(n, d) <= Quo(Quo(n / 2, v), h) <= Quo(n, d) + 1
  {
    hide Quo, Times;
    QuoTwo(n);
    QuoQuo(n, 2, v);
    TimesOne(v);
    QuoQuo(n, 2 * v, h);
    TwoInside(v, h);
    TimesMono(B / 2, e, v, e);
    OffByOne(n, d, Times(v, e), e, k);
  }

  lemma QuoTwo(n: nat)
    ensures Quo(n, 2) == n / 2
  {
  }

  lemma TwoInside(v: nat, h: nat)
    ensures Times(2 * v, h) == Times(v, 2 * h)
  {
  }

  /** Dividing by D instead of d, where D <= d < D + e and D is at least 2^31 * e, is off by at most one. */
  lemma OffByOne(n: nat, d: nat, D: nat, e: nat, k: nat)
    requires e >= 2 && Times(e, k) == 2 * B && D <= d < D + e && D >= Times(B / 2, e) && d <= n < M
    ensures D > 0 && Quo(n, d) <= Quo(n, D) <= Quo(n, d) + 1
  {
    hide Quo, Times;
    TimesPositive(B / 2, e);
    var q := Quo(n, d);
    QuoBounds(n, d);
    BelowK(n, d, e, k, q);
    TimesMono(q, D, q, d);
    QuoAtLeast(n, D, q);
    GapSmall(d - D, e, k, q + 1);
    Widen(q + 1, d, D);
    QuoBelow(n, D, q + 2);
  }

  lemma Widen(q: nat, d: nat, D: nat)
    requires D <= d && Times(q, d - D) <= D
    ensures Times(q, d) <= Times(q + 1, D)
  {
    hide Times;
    TimesAdd(D, d - D, q);
    TimesAdd(q, 1, D);
    TimesOne(D);
  }

  lemma BelowK(n: nat, d: nat, e: nat, k: nat, q: nat)
    requires Times(e, k) == 2 * B && d >= Times(B / 2, e) && n < M && Times(q, d) <= n
    ensures q < k
  {
    hide Times;
    TimesAssoc(B / 2, e, k);
    HalfTimes(2 * B);
    TimesMono(0, 0, B / 2, e);
    ZeroTimes();
    TimesMono(Times(B / 2, e), k, d, k);
    TimesSwap(d, k);
    if q >= k { TimesMono(k, d, q, d); }
  }

  lemma HalfTimes(x: int)
    ensures Times(B / 2, x) == B / 2 * x
  {
  }

  /** q * gap <= k * (e - 1) = 2^33 - k <= 2^31 * e. */
  lemma GapSmall(gap: nat, e: nat, k: nat, q: nat)
    requires gap < e && e >= 2 && Times(e, k) == 2 * B && q <= k
    ensures Times(q, gap) <= Times(B / 2, e)
  {
    hide Times;
    TimesMono(q, gap, k, e - 1);
    TimesAdd(e - 1, 1, k);
    TimesSwap(e - 1, k);
    TimesOne(k);
    HalfTimes(e);
    if e == 2 { TimesOne(k); }
    if e == 3 { ThreeTimes(k); }
  }

  lemma ThreeTimes(k: nat)
    ensures Times(3, k) == 3 * k
  {
  }

  /** The normalised divisor: d shifted up to 64 bits, and its upper half v. */
  lemma Normalised(d: nat, s: nat, e: nat)
    requires B <= d < M && s == LeadingZeros(d / B) && e == Pow2(32 - s)
    ensures Shifted(d, s) < M && e >= 2 && Times(e, Pow2(s)) == B
    ensures var v := Shifted(d, s) / B;
            B / 2 <= v < B && Times(v, e) <= d < Times(v, e) + e
  {
    hide Times, Shifted, LeadingZeros, Pow2;
    var p, d1 := Pow2(s), d / B;
    Pow2Add(32 - s, s);
    Pow2Values();
    Pow2Grows(1, 32 - s);
    ShiftIsTimes(d, s);
    ShiftIsTimes(d1, s);
    BelowE(d1, p, e);
    ShiftFits(d, d1, p, e);
    UpperHalf(d, d1, p, e, Shifted(d, s) / B);
  }

  lemma BelowE(d1: nat, p: nat, e: nat)
    requires Times(d1, p) < B && Times(e, p) == B
    ensures d1 < e
  {
    hide Times;
    if d1 >= e { TimesMono(e, p, d1, p); }
  }

  lemma ShiftFits(d: nat, d1: nat, p: nat, e: nat)
    requires d1 == d / B && d1 < e && Times(e, p) == B && p > 0
    ensures Times(d, p) < M && Times(d, p) >= Times(d1, p) * B
  {
    hide Times;
    TimesStrict(p, d, B * e);
    TimesB(e);
    TimesAssoc(B, e, p);
    TimesB(Times(e, p));
    TimesMono(B * d1, p, d, p);
    TimesB(d1);
    TimesAssoc(B, d1, p);
    TimesB(Times(d1, p));
  }

  lemma UpperHalf(d: nat, d1: nat, p: nat, e: nat, v: nat)
    requires Times(e, p) == B && B * v <= Times(d, p) < B * v + B && Times(d, p) < M && p > 0
    requires Times(d, p) >= Times(d1, p) * B && Times(d1, p) >= B / 2
    ensures B / 2 <= v < B && Times(v, e) <= d < Times(v, e) + e
  {
    hide Times;
    TimesAssoc(v, e, p);
    TimesB(v);
    TimesAdd(Times(v, e), e, p);
    TimesMono(0, 0, v, e);
    ZeroTimes();
    if Times(v, e) > d { TimesStrict(p, d, Times(v, e)); }
    if d >= Times(v, e) + e { TimesMono(Times(v, e) + e, p, d, p); }
  }

  // ----- Remainders and signed division

  /** The value of a 64-bit, and of a 32-bit, two's complement word. */
  function ToInt64(x: int): (r: int)
    ensures -H <= r < H && (-H <= x < H ==> r == x)
  {
    var y := x % M;
    if y < H then y else y - M
  }

  function ToInt32(x: int): (r: int)
    ensures -(B / 2) <= r < B / 2 && (-(B / 2) <= x < B / 2 ==> r == x)
  {
    var y := x % B;
    if y < B / 2 then y else y - B
  }

  /** `umod64`: the result type is 32 bits wide. */
  function Umod64(n: nat, d: nat): nat
    requires n < M && 0 < d < M
  {
    Word(Sub64(n, Mul64(d, Udiv64(n, d))))
  }

  /** The remainder, cut to 32 bits; so it is the remainder exactly when that fits. */
  lemma Umod64IsRemainder(n: nat, d: nat)
    requires n < M && 0 < d < M
    ensures Umod64(n, d) == n % d % B
    ensures Umod64(n, d) == n % d <==> n % d < B
  {
    hide Mul64, Sub64, Udiv64, Word, Times, Quo;
    Udiv64Correct(n, d);
    QuoRes(n, d);
    QuoDef(n, d);
    TimesSwap(d, Quo(n, d));
    TimesMono(0, 0, Quo(n, d), d);
    ZeroTimes();
    WordIsLow(n % d);
  }

  lemma QuoDef(n: nat, d: nat)
    requires d > 0
    ensures Quo(n, d) == n / d && Res(n, d) == n % d
  {
  }

  lemma WordIsLow(x: nat)
    ensures Word(x) == x % B
    ensures Word(x) == x <==> x < B
  {
  }

  function Abs(x: int): nat {
    if x >= 0 then x else -x
  }

  /** Division of integers that truncates toward zero, and its remainder. */
  function Trunc(n: int, d: int): int
    requires d != 0
  {
    var q: int := Quo(Abs(n), Abs(d));
    if (n < 0) == (d < 0) then q else -q
  }

  function Rem(n: int, d: int): int
    requires d != 0
  {
    n - Times(d, Trunc(n, d))
  }

  /** `sdiv64`. */
  function Sdiv64(n: int, d: int): int
    requires -H <= n < H && -H <= d < H && d != 0
  {
    var nAbs := if n >= 0 then n else Sub64(0, n + M);
    AbsWords(d);
    var dAbs := if d >= 0 then d else Sub64(0, d + M);
    var qAbs := Udiv64(nAbs, dAbs);
    if (n < 0) == (d < 0) then ToInt64(qAbs) else ToInt64(-ToInt64(qAbs))
  }

  lemma AbsWords(x: int)
    requires -H <= x < H
    ensures x < 0 ==> Sub64(0, x + M) == -x
  {
  }

  /** `sdiv64` truncates toward zero for all operands but one pair, whose quotient does not fit. */
  lemma Sdiv64IsTrunc(n: int, d: int)
    requires -H <= n < H && -H <= d < H && d != 0
    ensures Sdiv64(n, d) == Trunc(n, d) <==> !(n == -H && d == -1)
    ensures n == -H && d == -1 ==> Sdiv64(n, d) == -H && Trunc(n, d) == H
  {
    hide Quo, Udiv64, Sub64, ToInt64;
    AbsWords(n);
    AbsWords(d);
    Udiv64Correct(Abs(n), Abs(d));
    QuoDef(Abs(n), Abs(d));
    TruncBound(Abs(n), Abs(d));
    TopWraps();
  }

  lemma TopWraps()
    ensures ToInt64(H) == -H && ToInt64(-ToInt64(H)) == -H
  {
  }

  lemma TruncBound(a: nat, b: nat)
    requires b > 0
    ensures Quo(a, b) <= a
    ensures b == 1 ==> Quo(a, b) == a
    ensures b > 1 && a > 0 ==> Quo(a, b) < a
  {
    hide Quo, Times;
    QuoBounds(a, b);
    TimesMono(Quo(a, b), 1, Quo(a, b), b);
    TimesOne(Quo(a, b));
    TimesOne(Quo(a, b) + 1);
    if b > 1 && a > 0 {
      TimesMono(a, 2, a, b);
      TimesOne(a);
      QuoBelow(a, b, a);
    }
  }

  /** `smod64`: computed in 64 bits, returned in 32. */
  function Smod64(n: int, d: int): int
    requires -H <= n < H && -H <= d < H && d != 0
  {
    ToInt32(ToInt64(n - ToInt64(Times(d, Sdiv64(n, d)))))
  }

  lemma Smod64IsRemainder(n: int, d: int)
    requires -H <= n < H && -H <= d < H && d != 0
    ensures Smod64(n, d) == ToInt32(Rem(n, d))
    ensures Smod64(n, d) == Rem(n, d) <==> -(B / 2) <= Rem(n, d) < B / 2
  {
    hide ToInt64, ToInt32, Sdiv64, Times, Trunc;
    Sdiv64IsTrunc(n, d);
    if n == -H && d == -1 {
      WrappedProduct();
    } else {
      RemBounds(n, d);
    }
  }

  lemma WrappedProduct()
    ensures ToInt64(Times(-1, -H)) == -H && Times(-1, H) == -H
  {
  }

  lemma RemBounds(n: int, d: int)
    requires -H <= n < H && -H <= d < H && d != 0 && !(n == -H && d == -1)
    ensures -H <= Rem(n, d) < H && -H <= Times(d, Trunc(n, d)) < H
  {
    hide Times, Trunc, Quo;
    var q := Quo(Abs(n), Abs(d));
    QuoBounds(Abs(n), Abs(d));
    SignedProduct(n, d, q);
    TimesMono(0, 0, q, Abs(d));
    ZeroTimes();
  }

  lemma SignedProduct(n: int, d: int, q: nat)
    requires d != 0 && q == Quo(Abs(n), Abs(d))
    ensures n >= 0 ==> Times(d, Trunc(n, d)) == Times(q, Abs(d))
    ensures n < 0 ==> Times(d, Trunc(n, d)) == -Times(q, Abs(d))
  {
    hide Quo;
  }
}
