/** Bitwise operators on natural numbers, digit by digit, and the facts about products and
    quotients that index and digit arithmetic rest on. */
module Bits {

  function Pow2(k: nat): (p: nat)
    ensures p > 0
  {
    if k == 0 then 1 else 2 * Pow2(k - 1)
  }

  function Xor(a: nat, b: nat): nat {
    if a == 0 && b == 0 then 0 else 2 * Xor(a / 2, b / 2) + (if a % 2 == b % 2 then 0 else 1)
  }

  function Or(a: nat, b: nat): nat {
    if a == 0 && b == 0 then 0 else 2 * Or(a / 2, b / 2) + (if a % 2 == 0 && b % 2 == 0 then 0 else 1)
  }

  /** x shifted right by k, one place at a time; see `ShrIsDivision`. */
  function Shr(x: nat, k: nat): nat
    decreases k
  {
    if k == 0 then x else Shr(x / 2, k - 1)
  }

  // ---------------------------------------------------------------- shifts

  lemma DivTwice(x: nat, m: nat, n: nat)
    requires m > 0 && n > 0
    ensures m * n > 0 && x / m / n == x / (m * n)
  {
    var q, r := x / m, x % m;
    var q', r' := q / n, q % n;
    assert x == q * m + r && q == q' * n + r';
    assert x == q' * (m * n) + (r' * m + r);
    assert r' * m + m <= n * m by {
      MulLe(r' + 1, n, m);
    }
    QuotientIs(x, q', r' * m + r, m * n);
  }

  lemma MulLe(a: nat, b: nat, m: nat)
    requires a <= b
    ensures a * m <= b * m
  {}

  lemma NextMultiple(a: int, b: int, m: nat)
    requires a < b
    ensures a * m + m <= b * m
  {
    var d: nat := b - a - 1;
    assert d * m >= 0;
    assert b * m == (a + 1 + d) * m == a * m + m + d * m;
  }

  lemma QuotientIs(x: int, q: int, r: int, m: nat)
    requires m > 0 && x == q * m + r && 0 <= r < m
    ensures x / m == q && x % m == r
  {
    var q', r' := x / m, x % m;
    assert q' * m + r' == x;
    if q' > q {
      NextMultiple(q, q', m);
    } else if q' < q {
      NextMultiple(q', q, m);
    }
  }

  lemma {:induction false} Pow2Sum(j: nat, k: nat)
    ensures Pow2(j + k) == Pow2(j) * Pow2(k)
    decreases j
  {
    if j > 0 {
      Pow2Sum(j - 1, k);
      assert Pow2(j + k) == 2 * Pow2(j - 1 + k);
    }
  }

  lemma {:induction false} ShrIsDivision(x: nat, k: nat)
    ensures Shr(x, k) == x / Pow2(k)
    decreases k
  {
    if k > 0 {
      ShrIsDivision(x / 2, k - 1);
      DivTwice(x, 2, Pow2(k - 1));
    }
  }

  lemma {:induction false} ShrTwice(x: nat, j: nat, k: nat)
    ensures Shr(Shr(x, j), k) == Shr(x, j + k)
    decreases j
  {
    if j > 0 {
      ShrTwice(x / 2, j - 1, k);
    }
  }

  lemma {:induction false} ShrToZero(x: nat, k: nat)
    requires x < Pow2(k)
    ensures Shr(x, k) == 0
    decreases k
  {
    if k > 0 {
      ShrToZero(x / 2, k - 1);
    }
  }

  lemma {:induction false} ShrShrinks(x: nat, k: nat)
    ensures Shr(x, k) <= x
    decreases k
  {
    if k > 0 {
      ShrShrinks(x / 2, k - 1);
    }
  }

  lemma {:induction false} Pow2Grows(j: nat, k: nat)
    requires j <= k
    ensures Pow2(j) <= Pow2(k)
    decreases k - j
  {
    if j < k {
      Pow2Grows(j + 1, k);
    }
  }

  // ---------------------------------------------------------------- exclusive or

  lemma {:induction false} XorWithZero(a: nat)
    ensures Xor(a, 0) == a && Xor(0, a) == a
    decreases a
  {
    if a > 0 {
      XorWithZero(a / 2);
    }
  }

  lemma {:induction false} XorSelf(a: nat)
    ensures Xor(a, a) == 0
    decreases a
  {
    if a > 0 {
      XorSelf(a / 2);
    }
  }

  lemma XorHalves(a: nat, b: nat)
    ensures Xor(a, b) / 2 == Xor(a / 2, b / 2)
    ensures Xor(a, b) % 2 == if a % 2 == b % 2 then 0 else 1
  {}

  lemma {:induction false} XorAssociative(a: nat, b: nat, c: nat)
    ensures Xor(Xor(a, b), c) == Xor(a, Xor(b, c))
    decreases a + b + c
  {
    if a == 0 {
      XorWithZero(b);
      XorWithZero(Xor(b, c));
    } else {
      XorAssociative(a / 2, b / 2, c / 2);
      XorHalves(a, b);
      XorHalves(b, c);
      XorHalves(Xor(a, b), c);
      XorHalves(a, Xor(b, c));
    }
  }

  lemma {:induction false} XorShr(a: nat, b: nat, k: nat)
    ensures Shr(Xor(a, b), k) == Xor(Shr(a, k), Shr(b, k))
    decreases k
  {
    if k > 0 {
      XorShr(a / 2, b / 2, k - 1);
      XorHalves(a, b);
    }
  }

  lemma {:induction false} XorBelow(a: nat, b: nat, k: nat)
    requires a < Pow2(k) && b < Pow2(k)
    ensures Xor(a, b) < Pow2(k)
    decreases k
  {
    if k > 0 {
      XorBelow(a / 2, b / 2, k - 1);
    }
  }

  /** x added to itself shifted right by k. */
  function XorShift(x: nat, k: nat): nat { Xor(x, Shr(x, k)) }

  /** z added to itself shifted right by k and by 2k. */
  function UndoXorShift(z: nat, k: nat): nat { Xor(Xor(z, Shr(z, k)), Shr(z, 2 * k)) }

  /** A xor-right-shift by at least a third of the word width loses nothing. */
  lemma XorShiftUndone(x: nat, k: nat, width: nat)
    requires x < Pow2(width) && width <= 3 * k
    ensures UndoXorShift(XorShift(x, k), k) == x
  {
    hide Xor, Shr;
    var x1, x2, x3 := Shr(x, k), Shr(x, 2 * k), Shr(x, 3 * k);
    var z := XorShift(x, k);
    XorShr(x, x1, k);
    ShrTwice(x, k, k);
    XorShr(x, x1, 2 * k);
    ShrTwice(x, k, 2 * k);
    assert Shr(z, k) == Xor(x1, x2) && Shr(z, 2 * k) == Xor(x2, x3);
    Pow2Grows(width, 3 * k);
    ShrToZero(x, 3 * k);
    Telescope(x, x1, x2);
    XorWithZero(x2);
    XorAssociative(x, x2, x2);
    XorSelf(x2);
    XorWithZero(x);
  }

  /** (a ^ b) ^ (b ^ c) == a ^ c */
  lemma Telescope(a: nat, b: nat, c: nat)
    ensures Xor(Xor(a, b), Xor(b, c)) == Xor(a, c)
  {
    hide Xor;
    XorAssociative(a, b, Xor(b, c));
    XorAssociative(b, b, c);
    XorSelf(b);
    XorWithZero(c);
  }

  // ---------------------------------------------------------------- or

  /** Bits that do not overlap add up. */
  lemma {:induction false} OrOfDisjoint(a: nat, b: nat, k: nat)
    requires a < Pow2(k)
    ensures Or(a, b * Pow2(k)) == a + b * Pow2(k)
    decreases k
  {
    hide Or;
    if k == 0 {
      OrWithZero(b);
      assert b * Pow2(0) == b;
    } else {
      OrOfDisjoint(a / 2, b, k - 1);
      var high := b * Pow2(k - 1);
      TwiceProduct(b, k);
      OrStep(a, high);
    }
  }

  lemma TwiceProduct(b: nat, k: nat)
    requires k > 0
    ensures b * Pow2(k) == 2 * (b * Pow2(k - 1))
  {
    var p := Pow2(k - 1);
    assert Pow2(k) == 2 * p;
    assert b * (2 * p) == 2 * (b * p);
  }

  lemma {:induction false} OrStep(a: nat, high: nat)
    ensures Or(a, 2 * high) == 2 * Or(a / 2, high) + a % 2
  {}

  lemma {:induction false} OrWithZero(b: nat)
    ensures Or(0, b) == b
    decreases b
  {
    if b > 0 {
      OrWithZero(b / 2);
    }
  }
}
