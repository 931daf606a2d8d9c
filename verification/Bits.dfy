// Bitwise exclusive or and right shift of non-negative integers.
module Bits {
  import opened Arithmetic

  function Pow2(k: nat): (p: nat)
    ensures p > 0
  {
    if k == 0 then 1 else 2 * Pow2(k - 1)
  }

  function Xor(a: nat, b: nat): nat
    decreases a + b
  {
    if a == 0 && b == 0 then 0 else 2 * Xor(a / 2, b / 2) + (a + b) % 2
  }

  function Shr(a: nat, k: nat): nat {
    if k == 0 then a else Shr(a / 2, k - 1)
  }

  lemma {:induction false} XorStep(a: nat, b: nat)
    ensures Xor(a, b) / 2 == Xor(a / 2, b / 2)
    ensures Xor(a, b) % 2 == (a + b) % 2
  {
  }

  // Two numbers with the same last bit and the same remaining bits are equal.
  lemma {:induction false} SameBits(a: nat, b: nat)
    requires a / 2 == b / 2 && a % 2 == b % 2
    ensures a == b
  {
  }

  lemma {:induction false} XorSelf(a: nat)
    ensures Xor(a, a) == 0
  {
    if a > 0 {
      XorSelf(a / 2);
    }
  }

  lemma {:induction false} XorZero(a: nat)
    ensures Xor(a, 0) == a
  {
    if a > 0 {
      XorZero(a / 2);
    }
  }

  lemma {:induction false} XorCommutes(a: nat, b: nat)
    ensures Xor(a, b) == Xor(b, a)
    decreases a + b
  {
    if a + b > 0 {
      XorCommutes(a / 2, b / 2);
    }
  }

  lemma {:induction false} Parity(p: nat, q: nat, c: nat)
    requires p % 2 == q % 2
    ensures (p + c) % 2 == (q + c) % 2
  {
  }

  lemma {:induction false} XorAssociates(a: nat, b: nat, c: nat)
    ensures Xor(Xor(a, b), c) == Xor(a, Xor(b, c))
    decreases a + b + c
  {
    hide Xor;
    if a + b + c > 0 {
      XorAssociates(a / 2, b / 2, c / 2);
      XorStep(a, b);
      XorStep(b, c);
      XorStep(Xor(a, b), c);
      XorStep(a, Xor(b, c));
      Parity(Xor(a, b), a + b, c);
      Parity(Xor(b, c), b + c, a);
      SameBits(Xor(Xor(a, b), c), Xor(a, Xor(b, c)));
    } else {
      XorZero(0);
    }
  }

  lemma {:induction false} XorBelow(a: nat, b: nat, k: nat)
    requires a < Pow2(k) && b < Pow2(k)
    ensures Xor(a, b) < Pow2(k)
  {
    if k > 0 {
      XorBelow(a / 2, b / 2, k - 1);
    }
  }

  lemma {:induction false} ShrXor(a: nat, b: nat, k: nat)
    ensures Shr(Xor(a, b), k) == Xor(Shr(a, k), Shr(b, k))
  {
    if k > 0 {
      XorStep(a, b);
      ShrXor(a / 2, b / 2, k - 1);
    }
  }

  lemma {:induction false} ShrShr(a: nat, j: nat, k: nat)
    ensures Shr(Shr(a, j), k) == Shr(a, j + k)
  {
    if j > 0 {
      ShrShr(a / 2, j - 1, k);
    }
  }

  lemma {:induction false} ShrVanishes(a: nat, k: nat, n: nat)
    requires a < Pow2(n) && n <= k
    ensures Shr(a, k) == 0
  {
    if n > 0 {
      ShrVanishes(a / 2, k - 1, n - 1);
    } else if k > 0 {
      ShrVanishes(a / 2, k - 1, 0);
    }
  }

  // A right shift is a division by a power of two, rounding down.
  lemma {:induction false} ShrIsDivision(a: nat, k: nat)
    ensures Shr(a, k) == a / Pow2(k)
  {
    if k > 0 {
      ShrIsDivision(a / 2, k - 1);
      HalfThenDivide(a, Pow2(k - 1));
    }
  }

  lemma {:induction false} HalfThenDivide(a: nat, p: nat)
    requires p > 0
    ensures a / 2 / p == a / (2 * p)
  {
    var q, r := a / 2 / p, a / 2 % p;
    assert a == 2 * p * q + (2 * r + a % 2);
    assert 2 * r + a % 2 < 2 * p;
    assert 2 * p * q == q * (2 * p);
    Division(a, q, 2 * r + a % 2, 2 * p);
  }

  lemma {:induction false} ShrSmaller(a: nat, k: nat)
    ensures Shr(a, k) <= a
  {
    if k > 0 {
      ShrSmaller(a / 2, k - 1);
    }
  }

  function XorShift(x: nat, k: nat): nat {
    Xor(x, Shr(x, k))
  }

  // Undoes XorShift on numbers of at most 3k bits.
  function UnXorShift(y: nat, k: nat): nat {
    Xor(Xor(y, Shr(y, k)), Shr(y, 2 * k))
  }

  lemma {:induction false} UnXorShiftOfXorShift(x: nat, k: nat, n: nat)
    requires x < Pow2(n) && n <= 3 * k
    ensures UnXorShift(XorShift(x, k), k) == x
  {
    hide Xor, Shr;
    var x1, x2 := Shr(x, k), Shr(x, 2 * k);
    var y := XorShift(x, k);
    ShrShr(x, k, k);
    ShrShr(x, k, 2 * k);
    ShrShr(x, 2 * k, k);
    ShrVanishes(x, 3 * k, n);
    ShrXor(x, x1, k);
    ShrXor(x, x1, 2 * k);
    XorZero(x2);
    XorZero(x);
    Telescope(x, x1, x2);
  }

  // (x ^ x1) ^ (x1 ^ x2) ^ x2 == x
  lemma {:induction false} Telescope(x: nat, x1: nat, x2: nat)
    ensures Xor(Xor(Xor(x, x1), Xor(x1, x2)), x2) == x
  {
    hide Xor;
    XorAssociates(x, x1, Xor(x1, x2));
    XorAssociates(x1, x1, x2);
    XorSelf(x1);
    XorCommutes(0, x2);
    XorZero(x2);
    XorAssociates(x, x2, x2);
    XorSelf(x2);
    XorZero(x);
  }

  lemma {:induction false} XorShiftOfUnXorShift(y: nat, k: nat, n: nat)
    requires y < Pow2(n) && n <= 3 * k
    ensures XorShift(UnXorShift(y, k), k) == y
  {
    hide Xor, Shr;
    var y1, y2 := Shr(y, k), Shr(y, 2 * k);
    ShrShr(y, k, k);
    ShrShr(y, 2 * k, k);
    ShrVanishes(y, 3 * k, n);
    ShrXor(Xor(y, y1), y2, k);
    ShrXor(y, y1, k);
    XorZero(Xor(y1, y2));
    XorAssociates(y, y1, y2);
    XorAssociates(y, Xor(y1, y2), Xor(y1, y2));
    XorSelf(Xor(y1, y2));
    XorZero(y);
  }

  lemma {:induction false} XorShiftBelow(x: nat, k: nat, n: nat)
    requires x < Pow2(n)
    ensures XorShift(x, k) < Pow2(n)
    ensures UnXorShift(x, k) < Pow2(n)
  {
    ShrSmaller(x, k);
    ShrSmaller(x, 2 * k);
    XorBelow(x, Shr(x, k), n);
    XorBelow(Xor(x, Shr(x, k)), Shr(x, 2 * k), n);
  }
}
