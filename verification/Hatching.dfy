/** Genesis weights: the splitmix64 stream and the weights drawn from it.  64-bit words are
    natural numbers below 2^64 and wrap-around is written out. */
module Hatching {
  import opened Basics
  import opened Bits

  const TWO64 := 0x1_0000_0000_0000_0000

  type Word = x: int | 0 <= x < TWO64

  const GAMMA := 0x9E3779B97F4A7C15
  const MULTIPLIER_1 := 0xBF58476D1CE4E5B9
  const MULTIPLIER_2 := 0x94D049BB133111EB

  function Wrap(x: int): Word { x % TWO64 }

  /** The state moves on by the odd constant. */
  function Advance(state: Word): Word { Wrap(state + GAMMA) }

  /** The output mix applied to the advanced state. */
  function Mix(z: Word): nat {
    var a := Wrap(XorShift(z, 30) * MULTIPLIER_1);
    var b := Wrap(XorShift(a, 27) * MULTIPLIER_2);
    XorShift(b, 31)
  }

  /** The state after n draws. */
  function StateAfter(seed: Word, n: nat): Word
    decreases n
  {
    if n == 0 then seed else Advance(StateAfter(seed, n - 1))
  }

  /** The n-th output, counting from 0. */
  function Output(seed: Word, n: nat): nat { Mix(StateAfter(seed, n + 1)) }

  // ---------------------------------------------------------------- the mix is a bijection

  /** The inverses of the two odd multipliers modulo 2^64. */
  const INVERSE_1 := 0x96DE1B173F119089
  const INVERSE_2 := 0x319642B2D24D8EC3

  function Unmix(w: nat): nat {
    var b := UndoXorShift(w, 31);
    var a := UndoXorShift(Wrap(b * INVERSE_2), 27);
    UndoXorShift(Wrap(a * INVERSE_1), 30)
  }

  lemma WrapIs(x: int, q: int, r: Word)
    requires x == q * TWO64 + r
    ensures Wrap(x) == r
  {}

  /** Multiplying by an odd constant modulo 2^64 is undone by multiplying by its inverse. */
  lemma OddMultiplierUndone(x: Word, c: nat, inv: nat, q: nat)
    requires c * inv == 1 + q * TWO64
    ensures Wrap(Wrap(x * c) * inv) == x
  {
    var k := (x * c) / TWO64;
    assert Wrap(x * c) == x * c - k * TWO64;
    calc {
      Wrap(x * c) * inv;
      (x * c - k * TWO64) * inv;
      x * c * inv - k * TWO64 * inv;
      { assert x * c * inv == x * (c * inv); }
      x * (1 + q * TWO64) - k * TWO64 * inv;
      { assert x * (1 + q * TWO64) == x + x * q * TWO64; assert k * TWO64 * inv == (k * inv) * TWO64; }
      (x * q - k * inv) * TWO64 + x;
    }
    WrapIs(Wrap(x * c) * inv, x * q - k * inv, x);
  }

  lemma Pow2Of64()
    ensures Pow2(64) == TWO64
  {
    assert Pow2(8) == 0x100;
    assert Pow2(16) == 0x1_0000;
    assert Pow2(24) == 0x100_0000;
    assert Pow2(32) == 0x1_0000_0000;
    assert Pow2(40) == 0x100_0000_0000;
    assert Pow2(48) == 0x1_0000_0000_0000;
    assert Pow2(56) == 0x100_0000_0000_0000;
  }

  lemma XorShiftIsWord(x: Word, k: nat)
    ensures XorShift(x, k) < TWO64
  {
    hide Xor, Shr;
    Pow2Of64();
    ShrShrinks(x, k);
    XorBelow(x, Shr(x, k), 64);
  }

  /** The output mix loses nothing: it has an inverse on 64-bit words. */
  lemma MixInvertible(z: Word)
    ensures Unmix(Mix(z)) == z
  {
    hide XorShift, UndoXorShift, Pow2, Wrap;
    Pow2Of64();
    XorShiftIsWord(z, 30);
    var z1 := XorShift(z, 30);
    var a := Wrap(z1 * MULTIPLIER_1);
    XorShiftIsWord(a, 27);
    var a1 := XorShift(a, 27);
    var b := Wrap(a1 * MULTIPLIER_2);
    XorShiftUndone(b, 31, 64);
    OddMultiplierUndone(a1, MULTIPLIER_2, INVERSE_2, 2077064247507883091);
    XorShiftUndone(a, 27, 64);
    OddMultiplierUndone(z1, MULTIPLIER_1, INVERSE_1, 8125545580553827436);
    XorShiftUndone(z, 30, 64);
  }

  // ---------------------------------------------------------------- the state walks a full period

  lemma WrapOfSum(x: int, y: int)
    ensures Wrap(Wrap(x) + y) == Wrap(x + y)
  {
    var q := (Wrap(x) + y) / TWO64;
    WrapIs(x + y, x / TWO64 + q, Wrap(Wrap(x) + y));
  }

  lemma {:induction false} StateIsLinear(seed: Word, n: nat)
    ensures StateAfter(seed, n) == Wrap(seed + n * GAMMA)
    decreases n
  {
    hide Wrap;
    if n > 0 {
      StateIsLinear(seed, n - 1);
      WrapOfSum(seed + (n - 1) * GAMMA, GAMMA);
    } else {
      WrapIs(seed, 0, seed);
    }
  }

  const GAMMA_INVERSE := 0xF1DE83E19937733D

  /** The increment is odd: a multiple of it is 0 modulo 2^64 only for a multiple of 2^64. */
  lemma GammaCancels(d: nat, q: int)
    requires d * GAMMA == q * TWO64
    ensures d % TWO64 == 0
  {
    var c := 10771413168148108919;
    assert GAMMA * GAMMA_INVERSE == 1 + c * TWO64;
    assert d * GAMMA * GAMMA_INVERSE == q * GAMMA_INVERSE * TWO64;
    WrapIs(d, q * GAMMA_INVERSE - d * c, 0);
  }

  lemma EqualWraps(x: int, y: int)
    requires Wrap(x) == Wrap(y)
    ensures y - x == (y / TWO64 - x / TWO64) * TWO64
  {}

  /** The state returns to an earlier value exactly after a multiple of 2^64 draws. */
  lemma StatesRepeatExactly(seed: Word, i: nat, j: nat)
    requires i <= j
    ensures StateAfter(seed, i) == StateAfter(seed, j) <==> (j - i) % TWO64 == 0
  {
    hide Wrap, StateAfter;
    StateIsLinear(seed, i);
    StateIsLinear(seed, j);
    var x, y := seed + i * GAMMA, seed + j * GAMMA;
    var d := j - i;
    assert y - x == d * GAMMA;
    if Wrap(x) == Wrap(y) {
      EqualWraps(x, y);
      GammaCancels(d, y / TWO64 - x / TWO64);
    }
    if d % TWO64 == 0 {
      var m := d / TWO64;
      WrapOfMultiple(x, m * GAMMA);
      assert y == x + m * GAMMA * TWO64;
    }
  }

  lemma WrapOfMultiple(x: int, m: int)
    ensures Wrap(x + m * TWO64) == Wrap(x)
  {
    WrapIs(x + m * TWO64, x / TWO64 + m, Wrap(x));
  }

  /** Two outputs are equal exactly when they are a multiple of 2^64 draws apart: any 2^64
      consecutive outputs are pairwise different, and then the stream starts over. */
  lemma OutputsRepeatExactly(seed: Word, i: nat, j: nat)
    requires i <= j
    ensures Output(seed, i) == Output(seed, j) <==> (j - i) % TWO64 == 0
  {
    hide Mix, Unmix, StateAfter;
    MixInvertible(StateAfter(seed, i + 1));
    MixInvertible(StateAfter(seed, j + 1));
    StatesRepeatExactly(seed, i + 1, j + 1);
  }

  // ---------------------------------------------------------------- weights

  /** The word without its two lowest bits, modulo 17, less 8. */
  function WeightOf(r: nat): int8 { r / 4 % 17 - 8 }

  lemma WeightIs(r: nat)
    ensures IsWeightOf(r, WeightOf(r))
  {
    var q := r / 4;
    assert q - q % 17 == q / 17 * 17;
  }

  /** Weight i of a genesis vector, whatever the length of the vector. */
  function WeightAt(seed: Word, i: nat): int8 { WeightOf(Output(seed, i)) }

  /** splitmix64: advance the state passed in and return the mixed output. */
  method SplitMix64(state: Word) returns (state': Word, out: nat)
    ensures state' == Advance(state) && out == Mix(state')
  {
    hide XorShift, Wrap;
    state' := Advance(state);
    var z: Word := state';
    z := Wrap(XorShift(z, 30) * MULTIPLIER_1);
    z := Wrap(XorShift(z, 27) * MULTIPLIER_2);
    out := XorShift(z, 31);
  }

  /** A weight is the 62 high bits of the output, moved into [-8, 8] by a multiple of 17 and by 8. */
  predicate IsWeightOf(r: nat, w: int8) {
    -8 <= w <= 8 && (r / 4 - (w + 8)) % 17 == 0
  }

  /** The state after n draws, in one multiplication. */
  lemma StateInClosedForm(seed: Word, n: nat)
    ensures StateAfter(seed, n) == (seed + n * 0x9E3779B97F4A7C15) % 0x1_0000_0000_0000_0000
  {
    StateIsLinear(seed, n);
  }

  /** Every weight lies in [-8, 8] and weight i depends on the seed and i alone, so the vector
      for a smaller count is a prefix of the vector for a larger one. */
  method GenerateGenesisWeights(count: nat, seed: Word) returns (out: array<int8>)
    ensures fresh(out) && out.Length == count
    ensures forall i | 0 <= i < count :: out[i] == WeightAt(seed, i) && IsWeightOf(Output(seed, i), out[i])
  {
    hide Mix, Advance, Wrap, WeightOf, IsWeightOf;
    var state := seed;
    out := new int8[count];
    for i := 0 to count
      invariant state == StateAfter(seed, i)
      invariant forall j | 0 <= j < i :: out[j] == WeightAt(seed, j) && IsWeightOf(Output(seed, j), out[j])
    {
      var r;
      state, r := SplitMix64(state);
      WeightIs(r);
      out[i] := WeightOf(r);
    }
  }
}
