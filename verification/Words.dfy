/**
 Bitwise operations on machine words, as functions on nonnegative integers.
 `Bit(w, k)` is bit `k` of `w`; each operation is characterised bit by bit.
 */
module Words {
  function Pow2(n: nat): (p: nat)
    ensures p > 0
  {
    if n == 0 then 1 else 2 * Pow2(n - 1)
  }

  predicate Bit(w: nat, k: nat) {
    if k == 0 then w % 2 == 1 else Bit(w / 2, k - 1)
  }

  function Or(a: nat, b: nat): nat
    decreases a + b
  {
    if a == 0 && b == 0 then 0
    else 2 * Or(a / 2, b / 2) + (if a % 2 == 1 || b % 2 == 1 then 1 else 0)
  }

  function And(a: nat, b: nat): nat
    decreases a + b
  {
    if a == 0 && b == 0 then 0
    else 2 * And(a / 2, b / 2) + (if a % 2 == 1 && b % 2 == 1 then 1 else 0)
  }

  /** a & ~b. */
  function AndNot(a: nat, b: nat): nat
    decreases a + b
  {
    if a == 0 && b == 0 then 0
    else 2 * AndNot(a / 2, b / 2) + (if a % 2 == 1 && b % 2 == 0 then 1 else 0)
  }

  function Xor(a: nat, b: nat): nat
    decreases a + b
  {
    if a == 0 && b == 0 then 0
    else 2 * Xor(a / 2, b / 2) + (if a % 2 != b % 2 then 1 else 0)
  }

  lemma HalfTop(x: nat, c: nat)
    requires c <= 1
    ensures (2 * x + c) / 2 == x && (2 * x + c) % 2 == c
  {
  }

  lemma {:induction false} ZeroBits(k: nat)
    ensures !Bit(0, k)
  {
    if k > 0 { ZeroBits(k - 1); }
  }

  lemma BitDigits(x: nat, c: nat, k: nat)
    requires c <= 1
    ensures Bit(2 * x + c, k) <==> if k == 0 then c == 1 else Bit(x, k - 1)
  {
    HalfTop(x, c);
  }

  lemma {:induction false} OrBit(a: nat, b: nat, k: nat)
    ensures Bit(Or(a, b), k) <==> Bit(a, k) || Bit(b, k)
    decreases k
  {
    ZeroBits(k);
    if a + b > 0 {
      OrDigits(a, b);
      hide Bit, Or;
      BitDigits(a / 2, a % 2, k);
      BitDigits(b / 2, b % 2, k);
      BitDigits(Or(a / 2, b / 2), if a % 2 == 1 || b % 2 == 1 then 1 else 0, k);
      if k > 0 { OrBit(a / 2, b / 2, k - 1); }
    }
  }

  lemma OrDigits(a: nat, b: nat)
    requires a + b > 0
    ensures Or(a, b) == 2 * Or(a / 2, b / 2) + (if a % 2 == 1 || b % 2 == 1 then 1 else 0)
  {
  }

  lemma {:induction false} AndBit(a: nat, b: nat, k: nat)
    ensures Bit(And(a, b), k) <==> Bit(a, k) && Bit(b, k)
    decreases k
  {
    ZeroBits(k);
    if a + b > 0 {
      AndDigits(a, b);
      hide Bit, And;
      BitDigits(a / 2, a % 2, k);
      BitDigits(b / 2, b % 2, k);
      BitDigits(And(a / 2, b / 2), if a % 2 == 1 && b % 2 == 1 then 1 else 0, k);
      if k > 0 { AndBit(a / 2, b / 2, k - 1); }
    }
  }

  lemma AndDigits(a: nat, b: nat)
    requires a + b > 0
    ensures And(a, b) == 2 * And(a / 2, b / 2) + (if a % 2 == 1 && b % 2 == 1 then 1 else 0)
  {
  }

  lemma {:induction false} AndNotBit(a: nat, b: nat, k: nat)
    ensures Bit(AndNot(a, b), k) <==> Bit(a, k) && !Bit(b, k)
    decreases k
  {
    ZeroBits(k);
    if a + b > 0 {
      AndNotDigits(a, b);
      hide Bit, AndNot;
      BitDigits(a / 2, a % 2, k);
      BitDigits(b / 2, b % 2, k);
      BitDigits(AndNot(a / 2, b / 2), if a % 2 == 1 && b % 2 == 0 then 1 else 0, k);
      if k > 0 { AndNotBit(a / 2, b / 2, k - 1); }
    }
  }

  lemma AndNotDigits(a: nat, b: nat)
    requires a + b > 0
    ensures AndNot(a, b) == 2 * AndNot(a / 2, b / 2) + (if a % 2 == 1 && b % 2 == 0 then 1 else 0)
  {
  }

  lemma {:induction false} XorBit(a: nat, b: nat, k: nat)
    ensures Bit(Xor(a, b), k) <==> Bit(a, k) != Bit(b, k)
    decreases k
  {
    ZeroBits(k);
    if a + b > 0 {
      XorDigits(a, b);
      hide Bit, Xor;
      BitDigits(a / 2, a % 2, k);
      BitDigits(b / 2, b % 2, k);
      BitDigits(Xor(a / 2, b / 2), if a % 2 != b % 2 then 1 else 0, k);
      if k > 0 { XorBit(a / 2, b / 2, k - 1); }
    }
  }

  lemma XorDigits(a: nat, b: nat)
    requires a + b > 0
    ensures Xor(a, b) == 2 * Xor(a / 2, b / 2) + (if a % 2 != b % 2 then 1 else 0)
  {
  }

  lemma {:induction false} Pow2Bit(n: nat, k: nat)
    ensures Bit(Pow2(n), k) <==> k == n
    decreases n
  {
    if n == 0 {
      if k > 0 { ZeroBits(k - 1); }
    } else if k > 0 {
      Pow2Bit(n - 1, k - 1);
    }
  }

  lemma {:induction false} SomeBit(w: nat) returns (k: nat)
    requires w > 0
    ensures Bit(w, k)
  {
    if w % 2 == 1 {
      k := 0;
    } else {
      k := SomeBit(w / 2);
      k := k + 1;
    }
  }

  /** Testing one bit with a mask. */
  lemma MaskTest(w: nat, n: nat)
    ensures And(w, Pow2(n)) != 0 <==> Bit(w, n)
  {
    AndBit(w, Pow2(n), n);
    Pow2Bit(n, n);
    if And(w, Pow2(n)) == 0 {
      ZeroBits(n);
    } else {
      var k := SomeBit(And(w, Pow2(n)));
      AndBit(w, Pow2(n), k);
      Pow2Bit(n, k);
    }
  }

  /** Words stay words. */
  lemma {:induction false} OrBound(a: nat, b: nat, n: nat)
    requires a < Pow2(n) && b < Pow2(n)
    ensures Or(a, b) < Pow2(n)
    decreases n
  {
    if n > 0 { OrBound(a / 2, b / 2, n - 1); }
  }

  lemma {:induction false} AndNotBound(a: nat, b: nat)
    ensures AndNot(a, b) <= a
    decreases a + b
  {
    if a + b > 0 { AndNotBound(a / 2, b / 2); }
  }

  lemma {:induction false} XorBound(a: nat, b: nat, n: nat)
    requires a < Pow2(n) && b < Pow2(n)
    ensures Xor(a, b) < Pow2(n)
    decreases n
  {
    if n > 0 { XorBound(a / 2, b / 2, n - 1); }
  }

  lemma {:induction false} Pow2Grows(m: nat, n: nat)
    requires m <= n
    ensures Pow2(m) <= Pow2(n)
  {
    if m < n { Pow2Grows(m, n - 1); }
  }

  lemma Pow2Strict(m: nat, n: nat)
    requires m < n
    ensures Pow2(m) < Pow2(n)
  {
    Pow2Grows(m + 1, n);
  }

  /** Masking with a power of two less one is reduction modulo that power. */
  lemma {:induction false} MaskIsMod(x: nat, n: nat)
    ensures And(x, Pow2(n) - 1) == x % Pow2(n)
    decreases n
  {
    if n == 0 {
      AndZero(x);
    } else {
      MaskIsMod(x / 2, n - 1);
      var p := Pow2(n - 1);
      assert (2 * p - 1) / 2 == p - 1 && (2 * p - 1) % 2 == 1;
      ModTwice(x, p);
    }
  }

  lemma {:induction false} AndZero(x: nat)
    ensures And(x, 0) == 0
  {
    if x > 0 { AndZero(x / 2); }
  }

  lemma ModTwice(x: nat, p: nat)
    requires p > 0
    ensures x % (2 * p) == 2 * (x / 2 % p) + x % 2
  {
    var y := x / 2;
    var q := y / p;
    assert y == q * p + y % p;
    assert x == q * (2 * p) + (2 * (y % p) + x % 2);
    ModUnique(x, 2 * p, q, 2 * (y % p) + x % 2);
  }

  lemma ModUnique(x: nat, m: nat, q: nat, r: nat)
    requires m > 0 && x == q * m + r && r < m
    ensures x % m == r
  {
    var k := x / m;
    Distribute(k, q, m);
    NoMultiple(k - q, m, r - x % m);
  }

  lemma Distribute(k: int, q: int, m: int)
    ensures (k - q) * m == k * m - q * m
  {
  }

  lemma NoMultiple(d: int, m: int, s: int)
    requires m > 0 && d * m == s && s < m && s + m > 0
    ensures d == 0 && s == 0
  {
    AtLeastOne(d, m);
  }

  lemma AtLeastOne(d: int, m: int)
    requires m > 0
    ensures d >= 1 ==> d * m >= m
    ensures d <= -1 ==> d * m <= -m
  {
  }
}
