/** The xorshift32 generator that drives the random-turn duel (the `rng` lambda of the
    animator and `_rng` of the contract), and why its low bit cannot stay constant.

    The step is linear over GF(2).  `PROBES[k]` is a state whose next 32 low bits are all 0
    except the k-th, so every one of the 2^32 patterns of 32 low bits is shown by a sum of
    probes.  There are only 2^32 states, so each pattern is shown by exactly one state: the
    all-zero pattern only by state 0.  Applied to `x ^ Step(x)` this says that the low bit
    changes within 33 states. */
module Xorshift32 {
  import opened Basics
  import opened Bits

  /** The operator `^`, named so that proofs about sums of words can hide its bits. */
  function Xor(x: bv32, y: bv32): bv32 { x ^ y }

  function Shl13(x: bv32): bv32 { x << 13 }

  function Shr17(x: bv32): bv32 { x >> 17 }

  function Shl5(x: bv32): bv32 { x << 5 }

  function ShiftLeft13(x: bv32): bv32 { Xor(x, Shl13(x)) }

  function ShiftRight17(x: bv32): bv32 { Xor(x, Shr17(x)) }

  function ShiftLeft5(x: bv32): bv32 { Xor(x, Shl5(x)) }

  /** One draw: add to the state its shifts left by 13, right by 17 and left by 5, in turn. */
  function Step(x: bv32): bv32 {
    ShiftLeft5(ShiftRight17(ShiftLeft13(x)))
  }

  function Iterate(x: bv32, n: nat): bv32
    decreases n
  {
    if n == 0 then x else Step(Iterate(x, n - 1))
  }

  /** The turn bit taken from a state. */
  predicate Odd(x: bv32) { x & 1 != 0 }

  // ---------------------------------------------------------------- bijection

  function UndoLeft5(z: bv32): bv32 {
    var a := z ^ (z << 5);
    var b := a ^ (a << 10);
    b ^ (b << 20)
  }

  function UndoLeft13(z: bv32): bv32 { z ^ (z << 13) ^ (z << 26) }

  function Unstep(x: bv32): bv32 {
    UndoLeft13(ShiftRight17(UndoLeft5(x)))
  }

  lemma UndoLeft5Undoes(x: bv32)
    ensures UndoLeft5(x ^ (x << 5)) == x
  {}

  /** Shifting right by 17 twice clears all 32 bits, so this shift undoes itself. */
  lemma ShiftRight17Undoes(x: bv32)
    ensures ShiftRight17(ShiftRight17(x)) == x
  {
    hide Xor, Shr17;
    var s := Shr17(x);
    Shr17Twice(x);
    Shr17Adds(x, s);
    XorUnits(s);
    XorUnits(x);
    XorExchange(x, s, 0, s);
  }

  lemma Shr17Twice(x: bv32)
    ensures Shr17(Shr17(x)) == 0
  {}

  lemma UndoLeft13Undoes(x: bv32)
    ensures UndoLeft13(x ^ (x << 13)) == x
  {}

  lemma ShiftLeft5Is(x: bv32)
    ensures ShiftLeft5(x) == x ^ (x << 5)
  {}

  lemma ShiftLeft13Is(x: bv32)
    ensures ShiftLeft13(x) == x ^ (x << 13)
  {}

  /** The step is a bijection on 32-bit words. */
  lemma StepInvertible(x: bv32)
    ensures Unstep(Step(x)) == x
  {
    hide UndoLeft5, UndoLeft13, ShiftLeft13, ShiftRight17, ShiftLeft5;
    var u := ShiftLeft13(x);
    var v := ShiftRight17(u);
    ShiftLeft13Is(x);
    ShiftLeft5Is(v);
    UndoLeft5Undoes(v);
    ShiftRight17Undoes(u);
    UndoLeft13Undoes(x);
  }

  lemma StepOfZero()
    ensures Step(0) == 0 && Unstep(0) == 0
  {}

  /** A non-zero seed never reaches the absorbing state 0, and state 0 never leaves it. */
  lemma {:induction false} ZeroIsIsolated(x: bv32, n: nat)
    ensures Iterate(x, n) == 0 <==> x == 0
    decreases n
  {
    hide Step, Unstep;
    if n > 0 {
      ZeroIsIsolated(x, n - 1);
      StepInvertible(Iterate(x, n - 1));
      StepOfZero();
    }
  }

  /** No state but 0 repeats immediately. */
  lemma NoFixedPoint(x: bv32)
    requires Step(x) == x
    ensures x == 0
  {}

  // ---------------------------------------------------------------- linearity

  lemma XorIs(x: bv32, y: bv32)
    ensures Xor(x, y) == x ^ y
  {}

  lemma ExchangeBits(a: bv32, b: bv32, c: bv32, d: bv32, p: bv32, q: bv32, r: bv32, s: bv32)
    requires p == a ^ b && q == c ^ d && r == a ^ c && s == b ^ d
    ensures p ^ q == r ^ s
  {}

  lemma ExchangeNamed(a: bv32, b: bv32, c: bv32, d: bv32, p: bv32, q: bv32, r: bv32, s: bv32)
    requires p == Xor(a, b) && q == Xor(c, d) && r == Xor(a, c) && s == Xor(b, d)
    ensures Xor(p, q) == Xor(r, s)
  {
    hide Xor;
    XorIs(a, b);
    XorIs(c, d);
    XorIs(a, c);
    XorIs(b, d);
    ExchangeBits(a, b, c, d, p, q, r, s);
    XorIs(p, q);
    XorIs(r, s);
  }

  lemma XorExchange(a: bv32, b: bv32, c: bv32, d: bv32)
    ensures Xor(Xor(a, b), Xor(c, d)) == Xor(Xor(a, c), Xor(b, d))
  {
    hide Xor;
    ExchangeNamed(a, b, c, d, Xor(a, b), Xor(c, d), Xor(a, c), Xor(b, d));
  }

  lemma XorUnits(x: bv32)
    ensures Xor(x, x) == 0 && Xor(x, 0) == x && Xor(0, x) == x
  {}

  lemma XorZeroMeansEqual(x: bv32, y: bv32)
    requires Xor(x, y) == 0
    ensures x == y
  {}

  lemma Shl13Bits(x: bv32, y: bv32, z: bv32)
    requires z == x ^ y
    ensures z << 13 == (x << 13) ^ (y << 13)
  {}

  lemma Shl13Adds(x: bv32, y: bv32)
    ensures Shl13(Xor(x, y)) == Xor(Shl13(x), Shl13(y))
  {
    hide Xor;
    XorIs(x, y);
    Shl13Bits(x, y, Xor(x, y));
    XorIs(Shl13(x), Shl13(y));
  }

  lemma Shr17Bits(x: bv32, y: bv32, z: bv32)
    requires z == x ^ y
    ensures z >> 17 == (x >> 17) ^ (y >> 17)
  {}

  lemma Shr17Adds(x: bv32, y: bv32)
    ensures Shr17(Xor(x, y)) == Xor(Shr17(x), Shr17(y))
  {
    hide Xor;
    XorIs(x, y);
    Shr17Bits(x, y, Xor(x, y));
    XorIs(Shr17(x), Shr17(y));
  }

  lemma Shl5Bits(x: bv32, y: bv32, z: bv32)
    requires z == x ^ y
    ensures z << 5 == (x << 5) ^ (y << 5)
  {}

  lemma Shl5Adds(x: bv32, y: bv32)
    ensures Shl5(Xor(x, y)) == Xor(Shl5(x), Shl5(y))
  {
    hide Xor;
    XorIs(x, y);
    Shl5Bits(x, y, Xor(x, y));
    XorIs(Shl5(x), Shl5(y));
  }

  lemma StepAdds(x: bv32, y: bv32)
    ensures Step(Xor(x, y)) == Xor(Step(x), Step(y))
  {
    hide Xor, Shl13, Shr17, Shl5;
    Shl13Adds(x, y);
    XorExchange(x, y, Shl13(x), Shl13(y));
    var u, v := ShiftLeft13(x), ShiftLeft13(y);
    Shr17Adds(u, v);
    XorExchange(u, v, Shr17(u), Shr17(v));
    var w, z := ShiftRight17(u), ShiftRight17(v);
    Shl5Adds(w, z);
    XorExchange(w, z, Shl5(w), Shl5(z));
  }

  lemma {:induction false} IterateAdds(x: bv32, y: bv32, n: nat)
    ensures Iterate(Xor(x, y), n) == Xor(Iterate(x, n), Iterate(y, n))
    decreases n
  {
    hide Xor, Step;
    if n > 0 {
      IterateAdds(x, y, n - 1);
      StepAdds(Iterate(x, n - 1), Iterate(y, n - 1));
    }
  }

  lemma {:induction false} IterateFromStep(x: bv32, n: nat)
    ensures Iterate(Step(x), n) == Iterate(x, n + 1)
    decreases n
  {
    hide Step;
    if n > 0 {
      IterateFromStep(x, n - 1);
    }
  }

  lemma {:induction false} IterateZero(n: nat)
    ensures Iterate(0, n) == 0
    decreases n
  {
    hide Step;
    StepOfZero();
    if n > 0 {
      IterateZero(n - 1);
    }
  }

  lemma LowBitBits(x: bv32, y: bv32, z: bv32)
    requires z == x ^ y
    ensures z & 1 != 0 <==> ((x & 1 != 0) != (y & 1 != 0))
  {}

  lemma OddOfXor(x: bv32, y: bv32)
    ensures Odd(Xor(x, y)) <==> Odd(x) != Odd(y)
  {
    hide Xor;
    XorIs(x, y);
    LowBitBits(x, y, Xor(x, y));
  }

  // ---------------------------------------------------------------- every pattern is shown

  /** `PROBES[k]` shows the low bits 0, ..., 0, 1, 0, ..., 0 with the 1 at place k. */
  const PROBES: seq<bv32> := [
    0xD733508B, 0x2FFD289C, 0x10008BA6, 0x2F7877A0, 0x520B939C, 0xC869EA80,
    0x402615D4, 0x7EC2EED8, 0x750F963C, 0x9ED8CC0A, 0x19B86F60, 0x323FE43C,
    0x1DC2F27A, 0xFE23D75E, 0x459F7FB0, 0xD7A62E90, 0x345A8E58, 0x847FF61C,
    0x307EDE5C, 0x76D9EE4E, 0x51014DC8, 0xEE366B7E, 0xD86EBB3A, 0x4CB1CECE,
    0xDF76AA14, 0xD3272334, 0xA53A257E, 0xC0D89B64, 0x360DE2CE, 0xF1C783D0,
    0x7457FC38, 0x196FAD5A
  ]

  /** One draw moves probe k to probe k - 1, up to adding the last probe, and probe 0 to the
      last one. */
  predicate ProbeSteps(k: nat)
    requires k < 32
  {
    && Odd(PROBES[k]) == (k == 0)
    && (k == 0 ==> Step(PROBES[0]) == PROBES[31])
    && (k > 0 ==> Step(PROBES[k]) == PROBES[k - 1] || Step(PROBES[k]) == Xor(PROBES[k - 1], PROBES[31]))
  }

  lemma ProbeStepsA()
    ensures forall k | 0 <= k < 8 :: ProbeSteps(k)
  {
    assert Step(0xD733508B) == 0x196FAD5A;
    assert Step(0x2FFD289C) == 0xD733508B;
    assert Step(0x10008BA6) == 0x2FFD289C;
    assert Step(0x2F7877A0) == 0x10008BA6;
    assert Step(0x520B939C) == 0x2F7877A0;
    assert Step(0xC869EA80) == 0x520B939C;
    assert Step(0x402615D4) == Xor(0xC869EA80, 0x196FAD5A);
    assert Step(0x7EC2EED8) == 0x402615D4;
    ProbeParities();
    hide Step, Xor, Odd;
  }

  lemma ProbeStepsB()
    ensures forall k | 8 <= k < 16 :: ProbeSteps(k)
  {
    assert Step(0x750F963C) == 0x7EC2EED8;
    assert Step(0x9ED8CC0A) == Xor(0x750F963C, 0x196FAD5A);
    assert Step(0x19B86F60) == 0x9ED8CC0A;
    assert Step(0x323FE43C) == 0x19B86F60;
    assert Step(0x1DC2F27A) == 0x323FE43C;
    assert Step(0xFE23D75E) == 0x1DC2F27A;
    assert Step(0x459F7FB0) == Xor(0xFE23D75E, 0x196FAD5A);
    assert Step(0xD7A62E90) == Xor(0x459F7FB0, 0x196FAD5A);
    ProbeParities();
    hide Step, Xor, Odd;
  }

  lemma ProbeStepsC()
    ensures forall k | 16 <= k < 24 :: ProbeSteps(k)
  {
    assert Step(0x345A8E58) == 0xD7A62E90;
    assert Step(0x847FF61C) == Xor(0x345A8E58, 0x196FAD5A);
    assert Step(0x307EDE5C) == Xor(0x847FF61C, 0x196FAD5A);
    assert Step(0x76D9EE4E) == Xor(0x307EDE5C, 0x196FAD5A);
    assert Step(0x51014DC8) == Xor(0x76D9EE4E, 0x196FAD5A);
    assert Step(0xEE366B7E) == Xor(0x51014DC8, 0x196FAD5A);
    assert Step(0xD86EBB3A) == 0xEE366B7E;
    assert Step(0x4CB1CECE) == 0xD86EBB3A;
    ProbeParities();
    hide Step, Xor, Odd;
  }

  lemma ProbeStepsD()
    ensures forall k | 24 <= k < 32 :: ProbeSteps(k)
  {
    assert Step(0xDF76AA14) == 0x4CB1CECE;
    assert Step(0xD3272334) == 0xDF76AA14;
    assert Step(0xA53A257E) == 0xD3272334;
    assert Step(0xC0D89B64) == 0xA53A257E;
    assert Step(0x360DE2CE) == 0xC0D89B64;
    assert Step(0xF1C783D0) == 0x360DE2CE;
    assert Step(0x7457FC38) == 0xF1C783D0;
    assert Step(0x196FAD5A) == 0x7457FC38;
    ProbeParities();
    hide Step, Xor, Odd;
  }

  lemma ProbeParities()
    ensures forall k | 0 <= k < 32 :: Odd(PROBES[k]) == (k == 0)
  {}

  function Probe(k: nat): bv32
    requires k < 32
  {
    PROBES[k]
  }

  lemma ProbeStepsAll(k: nat)
    requires k < 32
    ensures Odd(Probe(k)) == (k == 0)
    ensures k == 0 ==> Step(Probe(0)) == Probe(31)
    ensures k > 0 ==> Step(Probe(k)) == Probe(k - 1) || Step(Probe(k)) == Xor(Probe(k - 1), Probe(31))
  {
    hide Xor, Step, Odd;
    ProbeStepsA();
    ProbeStepsB();
    ProbeStepsC();
    ProbeStepsD();
    assert ProbeSteps(k);
  }

  lemma {:induction false} ProbeShows(k: nat, j: nat)
    requires k < 32 && j < 32
    ensures Odd(Iterate(Probe(k), j)) <==> j == k
    decreases j
  {
    hide Xor, Step, Odd, Probe;
    ProbeStepsAll(k);
    if j > 0 {
      IterateFromStep(Probe(k), j - 1);
      ProbeShows(31, j - 1);
      if k > 0 {
        ProbeShows(k - 1, j - 1);
        IterateAdds(Probe(k - 1), Probe(31), j - 1);
        OddOfXor(Iterate(Probe(k - 1), j - 1), Iterate(Probe(31), j - 1));
      }
    }
  }

  /** The i-th binary digit of n. */
  predicate BitAt(n: nat, i: nat)
    decreases i
  {
    if i == 0 then n % 2 == 1 else BitAt(n / 2, i - 1)
  }

  /** The sum of the probes from place k on that the digits of n select. */
  function ProbeSum(n: nat, k: nat): bv32
    requires k <= 32
    decreases 32 - k
  {
    if k == 32 then 0 else Xor(if n % 2 == 1 then Probe(k) else 0, ProbeSum(n / 2, k + 1))
  }

  lemma {:induction false} ProbeSumShows(n: nat, k: nat, j: nat)
    requires k <= 32 && j < 32
    ensures Odd(Iterate(ProbeSum(n, k), j)) <==> k <= j && BitAt(n, j - k)
    decreases 32 - k
  {
    hide Xor, Step, Odd, Probe;
    IterateZero(j);
    ZeroIsEven();
    if k < 32 {
      var first := if n % 2 == 1 then Probe(k) else 0;
      ProbeSumShows(n / 2, k + 1, j);
      IterateAdds(first, ProbeSum(n / 2, k + 1), j);
      OddOfXor(Iterate(first, j), Iterate(ProbeSum(n / 2, k + 1), j));
      ProbeShows(k, j);
    }
  }

  lemma ZeroIsEven()
    ensures !Odd(0)
  {}

  // ---------------------------------------------------------------- and by one state only

  lemma {:induction false} BitsDetermine(n: nat, m: nat, w: nat)
    requires n < Pow2(w) && m < Pow2(w)
    requires forall i | 0 <= i < w :: BitAt(n, i) == BitAt(m, i)
    ensures n == m
    decreases w
  {
    if w > 0 {
      assert BitAt(n, 0) == BitAt(m, 0);
      forall i | 0 <= i < w - 1 ensures BitAt(n / 2, i) == BitAt(m / 2, i) {
        assert BitAt(n, i + 1) == BitAt(m, i + 1);
      }
      BitsDetermine(n / 2, m / 2, w - 1);
    }
  }

  lemma Pow2Of32()
    ensures Pow2(32) == 0x1_0000_0000
  {
    assert Pow2(6) == 0x40;
    assert Pow2(12) == 0x1000;
    assert Pow2(18) == 0x4_0000;
    assert Pow2(24) == 0x100_0000;
    assert Pow2(28) == 0x1000_0000;
  }

  /** The values of f on {0, ..., k-1}. */
  ghost function Image(f: int -> int, k: nat): set<int> {
    if k == 0 then {} else Image(f, k - 1) + {f(k - 1)}
  }

  lemma {:induction false} ImageHas(f: int -> int, k: nat, y: int)
    ensures y in Image(f, k) <==> exists i | 0 <= i < k :: f(i) == y
    decreases k
  {
    if k > 0 {
      ImageHas(f, k - 1, y);
      if i :| 0 <= i < k && f(i) == y {
        assert i == k - 1 || i < k - 1;
      }
    }
  }

  lemma {:induction false} ImageSize(f: int -> int, k: nat)
    requires forall i, j | 0 <= i < j < k :: f(i) != f(j)
    ensures |Image(f, k)| == k
    decreases k
  {
    if k > 0 {
      ImageSize(f, k - 1);
      ImageHas(f, k - 1, f(k - 1));
    }
  }

  /** An injective map of {0, ..., n-1} into itself reaches every element. */
  lemma InjectiveReaches(f: int -> int, n: nat, y: nat) returns (i: nat)
    requires forall i | 0 <= i < n :: 0 <= f(i) < n
    requires forall i, j | 0 <= i < j < n :: f(i) != f(j)
    requires y < n
    ensures i < n && f(i) == y
  {
    hide Image;
    var same := (i: int) => i;
    ImageSize(f, n);
    ImageSize(same, n);
    forall z | z in Image(f, n) ensures z in Image(same, n) {
      ImageHas(f, n, z);
      ImageHas(same, n, z);
      assert z == same(z);
    }
    SubsetOfSameSize(Image(f, n), Image(same, n));
    ImageHas(same, n, y);
    assert same(y) == y;
    ImageHas(f, n, y);
    i :| 0 <= i < n && f(i) == y;
  }

  lemma SubsetOfSameSize<T>(a: set<T>, b: set<T>)
    requires a <= b && |a| == |b|
    ensures a == b
  {
    if x :| x in b && x !in a {
      assert |b - {x}| == |b| - 1;
      assert a <= b - {x};
      SubsetSize(a, b - {x});
    }
  }

  function ShownBy(n: int): int {
    if n < 0 then 0 else ProbeSum(n, 0) as int
  }

  lemma WordOfInt(x: bv32, y: bv32)
    requires x as int == y as int
    ensures x == y
  {
    assert (x as int) as bv32 == x;
    assert (y as int) as bv32 == y;
  }

  /** Two patterns of 32 digits are shown by different states. */
  lemma ShownByInjective(n: nat, m: nat)
    requires n < 0x1_0000_0000 && m < 0x1_0000_0000 && ShownBy(n) == ShownBy(m)
    ensures n == m
  {
    hide ProbeSum, Odd, Iterate;
    WordOfInt(ProbeSum(n, 0), ProbeSum(m, 0));
    forall i | 0 <= i < 32 ensures BitAt(n, i) == BitAt(m, i) {
      ProbeSumShows(n, 0, i);
      ProbeSumShows(m, 0, i);
    }
    Pow2Of32();
    BitsDetermine(n, m, 32);
  }

  /** Every state is the one that shows its own pattern: it is a sum of probes. */
  lemma EveryStateIsASum(x: bv32) returns (n: nat)
    ensures n < 0x1_0000_0000 && x == ProbeSum(n, 0)
  {
    hide ProbeSum, BitAt;
    forall i, j | 0 <= i < j < 0x1_0000_0000 ensures ShownBy(i) != ShownBy(j) {
      if ShownBy(i) == ShownBy(j) {
        ShownByInjective(i, j);
      }
    }
    n := InjectiveReaches(ShownBy, 0x1_0000_0000, x as int);
    WordOfInt(x, ProbeSum(n, 0));
  }

  /** The next 32 low bits determine a state. */
  lemma LowBitsDetermine(x: bv32, y: bv32)
    requires forall i | 0 <= i < 32 :: Odd(Iterate(x, i)) == Odd(Iterate(y, i))
    ensures x == y
  {
    hide Odd, Iterate, ProbeSum, BitAt;
    var n := EveryStateIsASum(x);
    var m := EveryStateIsASum(y);
    forall i | 0 <= i < 32 ensures BitAt(n, i) == BitAt(m, i) {
      ProbeSumShows(n, 0, i);
      ProbeSumShows(m, 0, i);
    }
    Pow2Of32();
    BitsDetermine(n, m, 32);
  }

  // ---------------------------------------------------------------- the parity window

  /** A non-zero state shows an odd state within 32 draws. */
  lemma OddWithin32(x: bv32) returns (i: nat)
    requires x != 0
    ensures i < 32 && Odd(Iterate(x, i))
  {
    hide Odd, Step, Xor, Probe;
    var n := EveryStateIsASum(x);
    if forall i | 0 <= i < 32 :: !BitAt(n, i) {
      forall i | 0 <= i < 32 ensures BitAt(n, i) == BitAt(0, i) {
        NoBitsInZero(i);
      }
      Pow2Of32();
      BitsDetermine(n, 0, 32);
      SumOfNone(0);
    }
    i :| 0 <= i < 32 && BitAt(n, i);
    ProbeSumShows(n, 0, i);
  }

  lemma {:induction false} NoBitsInZero(i: nat)
    ensures !BitAt(0, i)
    decreases i
  {
    if i > 0 {
      NoBitsInZero(i - 1);
    }
  }

  lemma {:induction false} SumOfNone(k: nat)
    requires k <= 32
    ensures ProbeSum(0, k) == 0
    decreases 32 - k
  {
    hide Xor, Probe;
    if k < 32 {
      SumOfNone(k + 1);
      XorUnits(0);
    }
  }

  /** Any 33 consecutive states from a non-zero one contain both parities: the low bit of
      `x ^ Step(x)` says whether the parity changes at the next draw, and that word is not 0
      because only 0 is a fixed point. */
  lemma ParityWindow(x: bv32, odd: bool) returns (i: nat)
    requires x != 0
    ensures i <= 32 && Odd(Iterate(x, i)) == odd
  {
    hide Xor, Step, Odd;
    var y := Xor(x, Step(x));
    if y == 0 {
      XorZeroMeansEqual(x, Step(x));
      NoFixedPoint(x);
    }
    i := OddWithin32(y);
    IterateAdds(x, Step(x), i);
    IterateFromStep(x, i);
    OddOfXor(Iterate(x, i), Iterate(x, i + 1));
    if Odd(Iterate(x, i)) != odd {
      i := i + 1;
    }
  }

  /** The window cannot be shortened: some state is followed by 31 more odd ones. */
  lemma WindowIsTight() returns (x: bv32)
    ensures x != 0 && forall i | 0 <= i < 32 :: Odd(Iterate(x, i))
  {
    hide Odd, Step, Xor, Probe, ProbeSum, Pow2, BitAt;
    var all: nat := Pow2(32) - 1;
    x := ProbeSum(all, 0);
    forall i | 0 <= i < 32 ensures Odd(Iterate(x, i)) {
      AllOnes(32, i);
      ProbeSumShows(all, 0, i);
    }
    ZeroIsEven();
    assert Odd(Iterate(x, 0)) && Iterate(x, 0) == x;
  }

  lemma {:induction false} AllOnes(w: nat, i: nat)
    requires i < w
    ensures BitAt(Pow2(w) - 1, i)
    decreases i
  {
    assert (Pow2(w) - 1) / 2 == Pow2(w - 1) - 1;
    if i > 0 {
      AllOnes(w - 1, i - 1);
    }
  }
}
