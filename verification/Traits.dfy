/** Visual traits packed into a 128-bit word: 4 bits of shape and 12 bits of colour for the
    body, each sensor and each appendage, lowest bits first. */
module Traits {
  import opened Basics
  import opened Bits

  const MAX_SLOTS := 4

  datatype HSV = HSV(h: byte, s: byte, v: byte)

  /** The shape and colour of one body part. */
  datatype Part = Part(shape: byte, colour: HSV)

  const BLANK := Part(0, HSV(0, 0, 0))

  /** Four slots for sensors and four for appendages, as in the fixed arrays of the source. */
  datatype VisualTraits = VisualTraits(body: Part, sensors: seq<Part>, appendages: seq<Part>,
                                       sensorCount: byte, appendageCount: byte)
  {
    predicate Valid() { |sensors| == MAX_SLOTS && |appendages| == MAX_SLOTS }
  }

  const TWO128 := 0x1_0000_0000_0000_0000_0000_0000_0000_0000

  function Used(count: nat): nat { if count < MAX_SLOTS then count else MAX_SLOTS }

  /** Body and used slots fit in 128 bits; with four sensors and four appendages the last shift
      would be by the whole width of the word, which C++ leaves undefined. */
  predicate Packable(sensorCount: nat, appendageCount: nat) {
    Used(sensorCount) + Used(appendageCount) <= 7
  }

  // ---------------------------------------------------------------- the packed word

  /** The low nibbles of hue, saturation and value, hue highest. */
  function PackHsv(c: HSV): nat {
    Or(Or(c.h % 16 * 0x100, c.s % 16 * 0x10), c.v % 16)
  }

  function UnpackHsv(p: nat): HSV {
    HSV(p / 0x100 % 16, p / 0x10 % 16, p % 16)
  }

  /** The 16 bits of one part. */
  function Unit(p: Part): nat {
    p.shape % 16 + 16 * (Nibble(p.colour.h) * 0x100 + Nibble(p.colour.s) * 0x10 + Nibble(p.colour.v))
  }

  function Nibble(b: byte): nat { b % 16 }

  function Units(t: VisualTraits): seq<nat>
    requires t.Valid()
  {
    [Unit(t.body)] + UnitsOf(t.sensors[..Used(t.sensorCount)]) + UnitsOf(t.appendages[..Used(t.appendageCount)])
  }

  function UnitsOf(ps: seq<Part>): (r: seq<nat>)
    ensures |r| == |ps| && forall i | 0 <= i < |ps| :: r[i] == Unit(ps[i])
  {
    seq(|ps|, i requires 0 <= i < |ps| => Unit(ps[i]))
  }

  /** The number whose base-2^16 digits are the units, lowest first. */
  function Word(units: seq<nat>): nat {
    if units == [] then 0 else units[0] + 0x1_0000 * Word(units[1..])
  }

  /** Digit i of w in base 2^16. */
  function UnitAt(w: nat, i: nat): nat
    decreases i
  {
    if i == 0 then w % 0x1_0000 else UnitAt(w / 0x1_0000, i - 1)
  }

  function PartOf(unit: nat): Part { Part(unit % 16, UnpackHsv(unit / 16 % 0x1000)) }

  /** The parts in digits `from` to `from + used` of w, and blank slots after them. */
  function SlotsOf(w: nat, from: nat, used: nat): (r: seq<Part>)
    ensures |r| == MAX_SLOTS
  {
    seq(MAX_SLOTS, i requires 0 <= i < MAX_SLOTS => if i < used then PartOf(UnitAt(w, from + i)) else BLANK)
  }

  function Unpacked(w: nat, sensors: byte, appendages: byte): VisualTraits {
    VisualTraits(PartOf(UnitAt(w, 0)), SlotsOf(w, 1, Used(sensors)), SlotsOf(w, 1 + Used(sensors), Used(appendages)),
                 sensors, appendages)
  }

  // ---------------------------------------------------------------- digits

  lemma PackHsvIs(c: HSV)
    ensures PackHsv(c) == Nibble(c.h) * 0x100 + Nibble(c.s) * 0x10 + Nibble(c.v)
    ensures PackHsv(c) < 0x1000
  {
    hide Or;
    var h, s, v := Nibble(c.h), Nibble(c.s), Nibble(c.v);
    SmallPowers();
    OrCommutes(h * 0x100, s * 0x10);
    OrOfDisjoint(s * 0x10, h, 8);
    OrCommutes(h * 0x100 + s * 0x10, v);
    OrOfDisjoint(v, h * 0x10 + s, 4);
  }

  lemma SmallPowers()
    ensures Pow2(4) == 0x10 && Pow2(8) == 0x100 && Pow2(12) == 0x1000 && Pow2(16) == 0x1_0000
  {
    assert Pow2(4) == 0x10;
    assert Pow2(8) == 0x100;
    assert Pow2(12) == 0x1000;
  }

  lemma {:induction false} OrCommutes(a: nat, b: nat)
    ensures Or(a, b) == Or(b, a)
    decreases a + b
  {
    if a > 0 || b > 0 {
      OrCommutes(a / 2, b / 2);
    }
  }

  lemma UnitBound(p: Part)
    ensures Unit(p) < 0x1_0000
  {}

  lemma UnitsBelow(t: VisualTraits)
    requires t.Valid()
    ensures forall i | 0 <= i < |Units(t)| :: Units(t)[i] < 0x1_0000
  {
    hide Unit;
    forall i | 0 <= i < |Units(t)| ensures Units(t)[i] < 0x1_0000 {
      var s, a := t.sensors[..Used(t.sensorCount)], t.appendages[..Used(t.appendageCount)];
      UnitBound(t.body);
      if 1 <= i < 1 + |s| {
        UnitBound(s[i - 1]);
      } else if 1 + |s| <= i {
        UnitBound(a[i - 1 - |s|]);
      }
    }
  }

  /** Reading a digit back, and the digits beyond the word being 0. */
  lemma {:induction false} DigitOfWord(us: seq<nat>, i: nat)
    requires forall k | 0 <= k < |us| :: us[k] < 0x1_0000
    ensures UnitAt(Word(us), i) == if i < |us| then us[i] else 0
    decreases i
  {
    if us != [] {
      var rest := Word(us[1..]);
      assert Word(us) / 0x1_0000 == rest && Word(us) % 0x1_0000 == us[0];
      if i > 0 {
        DigitOfWord(us[1..], i - 1);
      }
    } else if i > 0 {
      DigitOfWord(us, i - 1);
    }
  }

  function Pow16(n: nat): (p: nat)
    ensures p > 0
  {
    if n == 0 then 1 else 0x1_0000 * Pow16(n - 1)
  }

  lemma {:induction false} Pow16Is(n: nat)
    ensures Pow16(n) == Pow2(16 * n)
    decreases n
  {
    if n > 0 {
      Pow16Is(n - 1);
      SmallPowers();
      Pow2Sum(16, 16 * (n - 1));
    }
  }

  /** The first n digits of w are w modulo 2^(16n). */
  lemma {:induction false} WordOfDigits(us: seq<nat>, w: nat)
    requires forall i | 0 <= i < |us| :: us[i] == UnitAt(w, i)
    ensures Word(us) == w % Pow16(|us|)
    decreases |us|
  {
    if us != [] {
      var n := |us| - 1;
      forall i | 0 <= i < n ensures us[1..][i] == UnitAt(w / 0x1_0000, i) {
        assert us[i + 1] == UnitAt(w, i + 1);
      }
      assert us[0] == UnitAt(w, 0);
      WordOfDigits(us[1..], w / 0x1_0000);
      SplitModulo(w, 0x1_0000, Pow16(n));
    }
  }

  lemma SplitModulo(w: nat, d: nat, p: nat)
    requires d > 0 && p > 0
    ensures d * p > 0 && w % (d * p) == w % d + d * (w / d % p)
  {
    var a, b := w / d, w % d;
    var q, r := a / p, a % p;
    QuotientAndRest(w, d);
    QuotientAndRest(a, p);
    SplitNamed(w, d, p, a, b, q, r);
    QuotientIs(w, q, b + d * r, d * p);
  }

  lemma QuotientAndRest(x: nat, m: nat)
    requires m > 0
    ensures x == (x / m) * m + x % m
  {}

  lemma SplitNamed(w: nat, d: nat, p: nat, a: nat, b: nat, q: nat, r: nat)
    requires w == a * d + b && a == q * p + r && b < d && r < p
    ensures w == q * (d * p) + (b + d * r) && b + d * r < d * p && 0 < d * p
  {
    MulLe(r + 1, p, d);
    assert (r + 1) * d == r * d + d;
    assert a * d == (q * p) * d + r * d;
    assert (q * p) * d == q * (d * p);
  }

  // ---------------------------------------------------------------- round trips

  function LowNibbles(p: Part): Part {
    Part(p.shape % 16, HSV(p.colour.h % 16, p.colour.s % 16, p.colour.v % 16))
  }

  lemma PartOfUnit(p: Part)
    ensures PartOf(Unit(p)) == LowNibbles(p)
  {
    var h, s, v := Nibble(p.colour.h), Nibble(p.colour.s), Nibble(p.colour.v);
    var colour := h * 0x100 + s * 0x10 + v;
    assert Unit(p) == p.shape % 16 + 16 * colour;
    assert Unit(p) / 16 == colour && Unit(p) % 16 == p.shape % 16;
    HsvFields(h, s, v);
  }

  lemma HsvFields(h: nat, s: nat, v: nat)
    requires h < 16 && s < 16 && v < 16
    ensures var colour := h * 0x100 + s * 0x10 + v;
            && colour % 0x1000 == colour
            && UnpackHsv(colour) == HSV(h, s, v)
  {
    var colour := h * 0x100 + s * 0x10 + v;
    assert colour / 0x10 == h * 0x10 + s;
    assert colour / 0x100 == h;
  }

  lemma UnitOfPart(u: nat)
    requires u < 0x1_0000
    ensures Unit(PartOf(u)) == u
  {
    var c := u / 16;
    assert c < 0x1000 && c % 0x1000 == c;
    var p := PartOf(u);
    assert p.shape == u % 16 && p.colour == UnpackHsv(c);
    ColourBack(c);
    UnitHidesColour(p, c);
    assert u == u % 16 + 16 * c;
  }

  lemma UnitHidesColour(p: Part, c: nat)
    requires Nibble(p.colour.h) * 0x100 + Nibble(p.colour.s) * 0x10 + Nibble(p.colour.v) == c
    ensures Unit(p) == p.shape % 16 + 16 * c
  {
    hide Nibble;
  }

  lemma ColourBack(c: nat)
    requires c < 0x1000
    ensures var d := UnpackHsv(c); Nibble(d.h) * 0x100 + Nibble(d.s) * 0x10 + Nibble(d.v) == c
  {
    assert c == c / 0x100 * 0x100 + c / 0x10 % 0x10 * 0x10 + c % 0x10;
  }

  /** What survives packing: low nibbles of the body and of the used slots. */
  function Normalised(t: VisualTraits): VisualTraits
    requires t.Valid()
  {
    VisualTraits(LowNibbles(t.body), Kept(t.sensors, Used(t.sensorCount)), Kept(t.appendages, Used(t.appendageCount)),
                 t.sensorCount, t.appendageCount)
  }

  function Kept(ps: seq<Part>, used: nat): seq<Part>
    requires |ps| == MAX_SLOTS
  {
    seq(MAX_SLOTS, i requires 0 <= i < MAX_SLOTS => if i < used then LowNibbles(ps[i]) else BLANK)
  }

  lemma SlotsBack(us: seq<nat>, ps: seq<Part>, from: nat, used: nat)
    requires |ps| == MAX_SLOTS && used <= MAX_SLOTS && from + used <= |us|
    requires forall k | 0 <= k < |us| :: us[k] < 0x1_0000
    requires forall k | 0 <= k < used :: us[from + k] == Unit(ps[k])
    ensures SlotsOf(Word(us), from, used) == Kept(ps, used)
  {
    hide Unit, PartOf, Word, LowNibbles;
    forall i | 0 <= i < MAX_SLOTS ensures SlotsOf(Word(us), from, used)[i] == Kept(ps, used)[i] {
      if i < used {
        DigitOfWord(us, from + i);
        PartOfUnit(ps[i]);
      }
    }
  }

  /** Unpacking a packed word gives the traits back up to low nibbles and unused slots. */
  lemma UnpackOfPack(t: VisualTraits)
    requires t.Valid()
    ensures Unpacked(Word(Units(t)), t.sensorCount, t.appendageCount) == Normalised(t)
  {
    hide Unit, PartOf, Word, LowNibbles, SlotsOf, Kept;
    var us := Units(t);
    UnitsBelow(t);
    DigitOfWord(us, 0);
    PartOfUnit(t.body);
    SlotsBack(us, t.sensors, 1, Used(t.sensorCount));
    SlotsBack(us, t.appendages, 1 + Used(t.sensorCount), Used(t.appendageCount));
  }

  /** Part q is what 16 bits keep of part p. */
  predicate KeptPart(p: Part, q: Part) {
    && q.shape == p.shape % 16
    && q.colour.h == p.colour.h % 16 && q.colour.s == p.colour.s % 16 && q.colour.v == p.colour.v % 16
  }

  /** Slot by slot: used ones come back up to low nibbles, unused ones as zeros. */
  lemma SlotsOfPacked(t: VisualTraits)
    requires t.Valid()
    ensures var u := Unpacked(Word(Units(t)), t.sensorCount, t.appendageCount);
            && u.sensorCount == t.sensorCount && u.appendageCount == t.appendageCount
            && |u.sensors| == 4 && |u.appendages| == 4
            && KeptPart(t.body, u.body)
            && (forall i | 0 <= i < 4 && i < t.sensorCount :: KeptPart(t.sensors[i], u.sensors[i]))
            && (forall i | 0 <= i < 4 && i < t.appendageCount :: KeptPart(t.appendages[i], u.appendages[i]))
            && (forall i | t.sensorCount <= i < 4 :: u.sensors[i] == Part(0, HSV(0, 0, 0)))
            && (forall i | t.appendageCount <= i < 4 :: u.appendages[i] == Part(0, HSV(0, 0, 0)))
  {
    hide Unpacked, Word, Units;
    UnpackOfPack(t);
  }

  /** A digit holds shape lowest, then value, saturation and hue. */
  predicate DigitOf(p: Part, d: nat) {
    d == p.shape % 16 + 0x10 * (p.colour.v % 16) + 0x100 * (p.colour.s % 16) + 0x1000 * (p.colour.h % 16)
  }

  /** Where the parts lie in the word: the body in the lowest 16 bits, then the used sensors in
      order, then the used appendages. */
  lemma LayoutOfPacked(t: VisualTraits)
    requires t.Valid()
    ensures var w := Word(Units(t));
            && DigitOf(t.body, UnitAt(w, 0))
            && (forall i | 0 <= i < 4 && i < t.sensorCount :: DigitOf(t.sensors[i], UnitAt(w, 1 + i)))
            && (forall i | 0 <= i < 4 && i < t.appendageCount ::
                  DigitOf(t.appendages[i], UnitAt(w, 1 + i + if t.sensorCount < 4 then t.sensorCount else 4)))
  {
    hide Unit, Word, UnitAt, DigitOf;
    var us := Units(t);
    UnitsBelow(t);
    DigitOfWord(us, 0);
    UnitIsDigit(t.body);
    forall i | 0 <= i < 4 && i < t.sensorCount ensures DigitOf(t.sensors[i], UnitAt(Word(us), 1 + i)) {
      DigitOfWord(us, 1 + i);
      UnitIsDigit(t.sensors[i]);
    }
    var used := if t.sensorCount < 4 then t.sensorCount else 4;
    forall i | 0 <= i < 4 && i < t.appendageCount ensures DigitOf(t.appendages[i], UnitAt(Word(us), 1 + i + used)) {
      DigitOfWord(us, 1 + i + used);
      UnitIsDigit(t.appendages[i]);
    }
  }

  lemma UnitIsDigit(p: Part)
    ensures DigitOf(p, Unit(p))
  {}

  predicate Nibbles(p: Part) {
    p.shape < 16 && p.colour.h < 16 && p.colour.s < 16 && p.colour.v < 16
  }

  predicate CanonicalSlots(ps: seq<Part>, used: nat) {
    forall i | 0 <= i < |ps| :: if i < used then Nibbles(ps[i]) else ps[i] == BLANK
  }

  /** Fields fit 4 bits and unused slots are zero. */
  predicate Canonical(t: VisualTraits) {
    && Nibbles(t.body)
    && CanonicalSlots(t.sensors, Used(t.sensorCount)) && CanonicalSlots(t.appendages, Used(t.appendageCount))
  }

  lemma KeptExactly(ps: seq<Part>, used: nat)
    requires |ps| == MAX_SLOTS
    ensures Kept(ps, used) == ps <==> CanonicalSlots(ps, used)
  {
    if CanonicalSlots(ps, used) {
      assert Kept(ps, used) == ps;
    }
    if Kept(ps, used) == ps {
      forall i | 0 <= i < |ps| ensures if i < used then Nibbles(ps[i]) else ps[i] == BLANK {
        assert Kept(ps, used)[i] == ps[i];
      }
    }
  }

  /** The round trip returns the same traits exactly for canonical traits. */
  lemma RoundTripExactly(t: VisualTraits)
    requires t.Valid()
    ensures Unpacked(Word(Units(t)), t.sensorCount, t.appendageCount) == t <==> Canonical(t)
  {
    hide Kept, CanonicalSlots, Unpacked, Units;
    UnpackOfPack(t);
    KeptExactly(t.sensors, Used(t.sensorCount));
    KeptExactly(t.appendages, Used(t.appendageCount));
  }

  /** Packing an unpacked word keeps its low 16 * (1 + sensors + appendages) bits. */
  lemma PackOfUnpack(w: nat, sensors: byte, appendages: byte)
    ensures Unpacked(w, sensors, appendages).Valid()
    ensures Word(Units(Unpacked(w, sensors, appendages))) == w % Pow2(16 * (1 + Used(sensors) + Used(appendages)))
  {
    hide Unit, PartOf, Word;
    var t := Unpacked(w, sensors, appendages);
    var us := Units(t);
    forall i | 0 <= i < |us| ensures us[i] == UnitAt(w, i) {
      DigitBound(w, i);
      UnitOfPart(UnitAt(w, i));
    }
    WordOfDigits(us, w);
    Pow16Is(|us|);
  }

  lemma {:induction false} DigitBound(w: nat, i: nat)
    ensures UnitAt(w, i) < 0x1_0000
    decreases i
  {
    if i > 0 {
      DigitBound(w / 0x1_0000, i - 1);
    }
  }

  // ---------------------------------------------------------------- the methods

  lemma {:induction false} WordAppend(us: seq<nat>, u: nat)
    ensures Word(us + [u]) == Word(us) + u * Pow16(|us|)
    decreases |us|
  {
    if us != [] {
      WordAppend(us[1..], u);
      assert (us + [u])[1..] == us[1..] + [u];
      assert 0x1_0000 * (u * Pow16(|us| - 1)) == u * Pow16(|us|);
    } else {
      assert [u][1..] == [] && us + [u] == [u];
      assert Word([u]) == u + 0x1_0000 * Word([]);
    }
  }

  lemma {:induction false} WordBound(us: seq<nat>)
    requires forall k | 0 <= k < |us| :: us[k] < 0x1_0000
    ensures Word(us) < Pow16(|us|)
    decreases |us|
  {
    if us != [] {
      WordBound(us[1..]);
    }
  }

  /** The push lambda: adds the low `width` bits of a value at position `bits` of a 128-bit word. */
  method Push(out: nat, bits: nat, value: nat, width: nat) returns (out': nat, bits': nat)
    ensures bits' == bits + width
    ensures out' == Or(out, value % Pow2(width) * Pow2(bits) % TWO128)
  {
    out' := Or(out, value % Pow2(width) * Pow2(bits) % TWO128);
    bits' := bits + width;
  }

  lemma Pow16Of8()
    ensures Pow16(8) == TWO128
  {
    assert Pow16(2) == 0x1_0000_0000;
    assert Pow16(4) == 0x1_0000_0000_0000_0000;
    assert Pow16(6) == 0x1_0000_0000_0000_0000_0000_0000;
  }

  lemma {:induction false} FieldFits(v: nat, width: nat, bits: nat)
    requires v < Pow2(width) && width + bits <= 128
    ensures v * Pow2(bits) % TWO128 == v * Pow2(bits)
  {
    Pow2Sum(width, bits);
    Pow2Grows(width + bits, 128);
    Pow16Is(8);
    Pow16Of8();
    NextMultiple(v, Pow2(width), Pow2(bits));
    QuotientIs(v * Pow2(bits), 0, v * Pow2(bits), TWO128);
  }

  /** Two pushes append one digit to the word. */
  lemma TwoPushes(us: seq<nat>, p: Part, after: nat, colour: nat)
    requires |us| <= 7 && forall k | 0 <= k < |us| :: us[k] < 0x1_0000
    requires colour == PackHsv(p.colour)
    requires after == Or(Word(us), p.shape % Pow2(4) * Pow2(16 * |us|) % TWO128)
    ensures Or(after, colour % Pow2(12) * Pow2(16 * |us| + 4) % TWO128) == Word(us + [Unit(p)])
  {
    hide Or, Word, PackHsv, Pow2, Pow16, Unit;
    var bits := 16 * |us|;
    var low := p.shape % 16;
    SmallPowers();
    PackHsvIs(p.colour);
    WordBound(us);
    Pow16Is(|us|);
    FieldFits(low, 4, bits);
    FieldFits(colour, 12, bits + 4);
    OrOfDisjoint(Word(us), low, bits);
    Pow2Sum(4, bits);
    SixteenFold(Word(us), low, colour, Pow2(bits));
    OrOfDisjoint(after, colour, bits + 4);
    WordAppend(us, Unit(p));
    UnitIs(p);
  }

  lemma SixteenFold(w: nat, low: nat, colour: nat, b: nat)
    requires w < b && low < 16
    ensures w + low * b < 16 * b
    ensures w + low * b + colour * (16 * b) == w + (low + 16 * colour) * b
  {
    MulLe(low + 1, 16, b);
  }

  lemma UnitIs(p: Part)
    ensures Unit(p) == p.shape % 16 + 16 * PackHsv(p.colour)
    ensures PackHsv(p.colour) % 0x1000 == PackHsv(p.colour)
  {
    hide PackHsv;
    PackHsvIs(p.colour);
  }

  method PushPart(out: nat, bits: nat, p: Part, ghost us: seq<nat>) returns (out': nat, bits': nat)
    requires |us| <= 7 && forall k | 0 <= k < |us| :: us[k] < 0x1_0000
    requires out == Word(us) && bits == 16 * |us|
    ensures out' == Word(us + [Unit(p)]) && bits' == bits + 16
    ensures forall k | 0 <= k < |us + [Unit(p)]| :: (us + [Unit(p)])[k] < 0x1_0000
  {
    hide Or, Word, PackHsv, Pow2, Unit;
    UnitBound(p);
    out', bits' := Push(out, bits, p.shape, 4);
    TwoPushes(us, p, out', PackHsv(p.colour));
    out', bits' := Push(out', bits', PackHsv(p.colour), 12);
  }

  method PushSlots(out: nat, bits: nat, ps: seq<Part>, count: nat, ghost us: seq<nat>) returns (out': nat, bits': nat)
    requires |ps| == MAX_SLOTS && |us| + Used(count) <= 8
    requires forall k | 0 <= k < |us| :: us[k] < 0x1_0000
    requires out == Word(us) && bits == 16 * |us|
    ensures out' == Word(us + UnitsOf(ps[..Used(count)])) && bits' == bits + 16 * Used(count)
  {
    hide Word, Unit;
    out', bits' := out, bits;
    ghost var now := us;
    var i := 0;
    while i < count && i < MAX_SLOTS
      invariant 0 <= i <= Used(count)
      invariant now == us + UnitsOf(ps[..i])
      invariant forall k | 0 <= k < |now| :: now[k] < 0x1_0000
      invariant out' == Word(now) && bits' == 16 * |now|
    {
      out', bits' := PushPart(out', bits', ps[i], now);
      assert UnitsOf(ps[..i + 1]) == UnitsOf(ps[..i]) + [Unit(ps[i])];
      now := now + [Unit(ps[i])];
      i := i + 1;
    }
  }

  method PackTraits(t: VisualTraits) returns (out: nat)
    requires t.Valid() && Packable(t.sensorCount, t.appendageCount)
    ensures out == Word(Units(t)) && out < TWO128
  {
    hide Word, Unit;
    EmptyWord();
    UnitsBelow(t);
    UnitBound(t.body);
    var bits := 0;
    out, bits := PushPart(0, bits, t.body, []);
    ghost var us := [Unit(t.body)];
    assert [] + us == us;
    out, bits := PushSlots(out, bits, t.sensors, t.sensorCount, us);
    ghost var vs := us + UnitsOf(t.sensors[..Used(t.sensorCount)]);
    PrefixBelow(vs, Units(t));
    out, bits := PushSlots(out, bits, t.appendages, t.appendageCount, vs);
    WordBound(Units(t));
    Pow16Grows(|Units(t)|, 8);
    Pow16Of8();
  }

  /** Counts are packable exactly when every choice of traits with these counts has a word of 128
      bits.  Only four sensors with four appendages are not: a non-blank last part is lost. */
  lemma PackableExactly(sensorCount: byte, appendageCount: byte)
    ensures (forall t: VisualTraits | t.Valid() && t.sensorCount == sensorCount && t.appendageCount == appendageCount ::
               Word(Units(t)) < TWO128)
       <==> Packable(sensorCount, appendageCount)
  {
    hide Word, Unit;
    Pow16Of8();
    if Packable(sensorCount, appendageCount) {
      forall t: VisualTraits | t.Valid() && t.sensorCount == sensorCount && t.appendageCount == appendageCount
        ensures Word(Units(t)) < TWO128
      {
        UnitsBelow(t);
        WordBound(Units(t));
        Pow16Grows(|Units(t)|, 8);
      }
    } else {
      var part := Part(1, HSV(0, 0, 0));
      var t := VisualTraits(part, seq(MAX_SLOTS, _ => part), seq(MAX_SLOTS, _ => part), sensorCount, appendageCount);
      var us := Units(t);
      UnitOfOne();
      assert us == us[..8] + [us[8]] && us[8] == 1;
      WordAppend(us[..8], 1);
      assert Word(us) >= TWO128;
    }
  }

  lemma UnitOfOne()
    ensures Unit(Part(1, HSV(0, 0, 0))) == 1
  {}

  lemma PrefixBelow(us: seq<nat>, vs: seq<nat>)
    requires us <= vs && forall k | 0 <= k < |vs| :: vs[k] < 0x1_0000
    ensures forall k | 0 <= k < |us| :: us[k] < 0x1_0000
  {
    forall k | 0 <= k < |us| ensures us[k] < 0x1_0000 {
      assert us[k] == vs[k];
    }
  }

  lemma EmptyWord()
    ensures Word([]) == 0
  {}

  lemma {:induction false} Pow16Grows(m: nat, n: nat)
    requires m <= n
    ensures Pow16(m) <= Pow16(n)
    decreases n - m
  {
    if m < n {
      Pow16Grows(m + 1, n);
    }
  }

  /** The pop lambda: the `width` bits at position `bits`. */
  method Pop(packed: nat, bits: nat, width: nat) returns (val: nat, bits': nat)
    ensures bits' == bits + width && val == Shr(packed, bits) % Pow2(width)
  {
    val := Shr(packed, bits) % Pow2(width);
    bits' := bits + width;
  }

  lemma {:induction false} ShrSixteen(w: nat, i: nat)
    ensures Shr(w, 16 * i) % 0x1_0000 == UnitAt(w, i)
    decreases i
  {
    hide Shr;
    if i > 0 {
      ShrTwice(w, 16, 16 * (i - 1));
      ShrIsDivision(w, 16);
      SmallPowers();
      ShrSixteen(w / 0x1_0000, i - 1);
    } else {
      ShrNone(w);
    }
  }

  lemma ShrNone(w: nat)
    ensures Shr(w, 0) == w
  {}

  lemma DigitFields(w: nat, i: nat)
    ensures Shr(w, 16 * i) % Pow2(4) == UnitAt(w, i) % 16
    ensures Shr(w, 16 * i + 4) % Pow2(12) == UnitAt(w, i) / 16 % 0x1000
  {
    hide Shr, UnitAt, Pow2;
    SmallPowers();
    ShrSixteen(w, i);
    ShrTwice(w, 16 * i, 4);
    ShrIsDivision(Shr(w, 16 * i), 4);
    LowAndHigh(Shr(w, 16 * i));
  }

  lemma LowAndHigh(x: nat)
    ensures x % 16 == x % 0x1_0000 % 16 && x / 16 % 0x1000 == x % 0x1_0000 / 16 % 0x1000
  {
    var u, q := x % 0x1_0000, x / 0x1_0000;
    assert x == u + 16 * (0x1000 * q);
    assert x / 16 == u / 16 + 0x1000 * q;
  }

  method PopPart(packed: nat, bits: nat, ghost i: nat) returns (p: Part, bits': nat)
    requires bits == 16 * i
    ensures p == PartOf(UnitAt(packed, i)) && bits' == bits + 16
  {
    hide Shr, UnitAt, Pow2;
    DigitFields(packed, i);
    var shape, colour;
    shape, bits' := Pop(packed, bits, 4);
    colour, bits' := Pop(packed, bits', 12);
    p := Part(shape, UnpackHsv(colour));
  }

  method UnpackTraits(packed: nat, sensors: byte, appendages: byte) returns (t: VisualTraits)
    requires Packable(sensors, appendages)
    ensures t == Unpacked(packed, sensors, appendages) && t.Valid()
  {
    hide UnitAt, PartOf;
    t := VisualTraits(BLANK, [BLANK, BLANK, BLANK, BLANK], [BLANK, BLANK, BLANK, BLANK], sensors, appendages);
    var bits, p := 0, BLANK;
    p, bits := PopPart(packed, bits, 0);
    t := t.(body := p);
    var i := 0;
    while i < sensors && i < MAX_SLOTS
      invariant 0 <= i <= Used(sensors) && bits == 16 * (1 + i)
      invariant t == VisualTraits(PartOf(UnitAt(packed, 0)), SlotsOf(packed, 1, i), SlotsOf(packed, 0, 0), sensors,
                                  appendages)
    {
      p, bits := PopPart(packed, bits, 1 + i);
      t := t.(sensors := t.sensors[i := p]);
      assert t.sensors == SlotsOf(packed, 1, i + 1);
      i := i + 1;
    }
    ghost var u := Used(sensors);
    i := 0;
    assert SlotsOf(packed, 0, 0) == SlotsOf(packed, 1 + u, 0);
    while i < appendages && i < MAX_SLOTS
      invariant 0 <= i <= Used(appendages) && bits == 16 * (1 + u + i)
      invariant t == VisualTraits(PartOf(UnitAt(packed, 0)), SlotsOf(packed, 1, u), SlotsOf(packed, 1 + u, i), sensors,
                                  appendages)
    {
      p, bits := PopPart(packed, bits, 1 + u + i);
      t := t.(appendages := t.appendages[i := p]);
      assert t.appendages == SlotsOf(packed, 1 + u, i + 1);
      i := i + 1;
    }
  }

  // ---------------------------------------------------------------- bytes of the word

  /** The number with these big-endian bytes. */
  function BigEndian(bs: seq<byte>): nat {
    if bs == [] then 0 else 0x100 * BigEndian(bs[..|bs| - 1]) + bs[|bs| - 1]
  }

  function Pow256(n: nat): (p: nat)
    ensures p > 0
  {
    if n == 0 then 1 else 0x100 * Pow256(n - 1)
  }

  /** Byte i counted from the low end. */
  lemma {:induction false} BytesOfNumber(bs: seq<byte>, v: nat)
    requires forall i | 0 <= i < |bs| :: bs[|bs| - 1 - i] == Shr(v, 8 * i) % 0x100
    ensures BigEndian(bs) == v % Pow256(|bs|)
    decreases |bs|
  {
    hide Shr, Pow2;
    if bs != [] {
      var n := |bs| - 1;
      var front := bs[..n];
      SmallPowers();
      ShrIsDivision(v, 8);
      ShrNone(v);
      forall i | 0 <= i < n ensures front[n - 1 - i] == Shr(v / 0x100, 8 * i) % 0x100 {
        ShrTwice(v, 8, 8 * i);
        assert bs[n - (i + 1)] == Shr(v, 8 * (i + 1)) % 0x100;
      }
      assert bs[n - 0] == Shr(v, 8 * 0) % 0x100;
      BytesOfNumber(front, v / 0x100);
      SplitModulo(v, 0x100, Pow256(n));
      assert BigEndian(bs) == 0x100 * BigEndian(front) + bs[n];
    }
  }

  /** traits_to_bytes: sixteen big-endian bytes that stand for the word itself. */
  method TraitsToBytes(v: nat) returns (out: array<byte>)
    requires v < TWO128
    ensures fresh(out) && out.Length == 16 && BigEndian(out[..]) == v
    ensures forall i | 0 <= i < 16 :: out[15 - i] == Shr(v, 8 * i) % 0x100
  {
    hide Shr, BigEndian;
    out := new byte[16];
    for i := 0 to 16
      invariant forall k | 0 <= k < i :: out[15 - k] == Shr(v, 8 * k) % 0x100
    {
      out[15 - i] := Shr(v, i * 8) % 0x100;
    }
    BytesOfNumber(out[..], v);
    Pow256Of16();
    QuotientIs(v, 0, v, TWO128);
  }

  lemma Pow256Of16()
    ensures Pow256(16) == TWO128
  {
    assert Pow256(4) == 0x1_0000_0000;
    assert Pow256(8) == 0x1_0000_0000_0000_0000;
    assert Pow256(12) == 0x1_0000_0000_0000_0000_0000_0000;
  }
}
