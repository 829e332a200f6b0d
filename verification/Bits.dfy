/**
 Powers of two and bitwise operators on unbounded naturals.
 */
module Bits {

  function Pow2(n: nat): (p: nat)
    ensures 0 < p
  {
    if n == 0 then 1 else 2 * Pow2(n - 1)
  }

  /** Bitwise exclusive or. */
  function Xor(a: nat, b: nat): nat
    decreases a + b
  {
    if a == 0 && b == 0 then 0
    else 2 * Xor(a / 2, b / 2) + (a + b) % 2
  }

  lemma {:induction false} XorStep(a: nat, b: nat)
    ensures Xor(a, b) == 2 * Xor(a / 2, b / 2) + (a + b) % 2
    ensures Xor(a, b) / 2 == Xor(a / 2, b / 2) && Xor(a, b) % 2 == (a + b) % 2
  {
    if a == 0 && b == 0 { assert Xor(0, 0) == 0; }
  }

  lemma ParityTwice(a: nat, b: nat, x: nat)
    requires x % 2 == (a + b) % 2
    ensures (x + b) % 2 == a % 2
  {
  }

  lemma {:induction false} XorTwice(a: nat, b: nat)
    ensures Xor(Xor(a, b), b) == a
    decreases a + b
  {
    if a == 0 && b == 0 {
      assert Xor(0, 0) == 0;
    } else {
      var x := Xor(a, b);
      XorTwice(a / 2, b / 2);
      XorStep(a, b);
      XorStep(x, b);
      ParityTwice(a, b, x);
    }
  }

  lemma {:induction false} XorCommutes(a: nat, b: nat)
    ensures Xor(a, b) == Xor(b, a)
    decreases a + b
  {
    if a != 0 || b != 0 { XorCommutes(a / 2, b / 2); }
  }

  lemma {:induction false} XorBound(a: nat, b: nat, n: nat)
    requires a < Pow2(n) && b < Pow2(n)
    ensures Xor(a, b) < Pow2(n)
  {
    if n > 0 && (a != 0 || b != 0) { XorBound(a / 2, b / 2, n - 1); }
  }

  lemma Twice(q: nat, p: nat)
    ensures q * (2 * p) == 2 * (q * p)
  {
  }

  lemma HalfSum(half: nat, r: nat, b: nat)
    ensures (2 * half + r) / 2 == half + r / 2 && (2 * half + r + b) % 2 == (r + b) % 2
  {
  }

  /** A short operand only touches the low bits. */
  lemma {:induction false} XorLow(q: nat, r: nat, b: nat, n: nat)
    requires r < Pow2(n) && b < Pow2(n)
    ensures Xor(q * Pow2(n) + r, b) == q * Pow2(n) + Xor(r, b)
    decreases n
  {
    if n == 0 {
      XorZero(q);
    } else {
      var a := q * Pow2(n) + r;
      var half := q * Pow2(n - 1);
      Twice(q, Pow2(n - 1));
      HalfSum(half, r, b);
      XorLow(q, r / 2, b / 2, n - 1);
      XorStep(a, b);
      XorStep(r, b);
    }
  }

  lemma {:induction false} XorZero(a: nat)
    ensures Xor(a, 0) == a
  {
    if a != 0 { XorZero(a / 2); }
  }

  lemma {:induction false} Pow2Sum(m: nat, n: nat)
    ensures Pow2(m + n) == Pow2(m) * Pow2(n)
  {
    if m > 0 {
      Pow2Sum(m - 1, n);
      assert Pow2(m + n) == 2 * (Pow2(m - 1) * Pow2(n));
    }
  }

  /** Bitwise or. */
  function Or(a: nat, b: nat): nat
    decreases a + b
  {
    if a == 0 && b == 0 then 0
    else 2 * Or(a / 2, b / 2) + if a % 2 == 1 || b % 2 == 1 then 1 else 0
  }

  lemma {:induction false} OrZero(b: nat)
    ensures Or(0, b) == b
  {
    if b != 0 { OrZero(b / 2); }
  }

  /** Or of numbers without common bits is their sum. */
  lemma {:induction false} OrDisjoint(r: nat, q: nat, n: nat)
    requires r < Pow2(n)
    ensures Or(r, q * Pow2(n)) == r + q * Pow2(n)
    decreases n
  {
    if n == 0 {
      OrZero(q);
    } else {
      var a := q * Pow2(n);
      Twice(q, Pow2(n - 1));
      OrDisjoint(r / 2, q, n - 1);
      assert a / 2 == q * Pow2(n - 1) && a % 2 == 0;
    }
  }
}
