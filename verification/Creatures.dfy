/** Creature statistics with item bonuses (the structs Item and CreatureStats). */
module Creatures {

  datatype Item = Item(id: bv32, power: int, defense: int, stamina: int)

  datatype CreatureStats = CreatureStats(id: bv32, power: int, defense: int, stamina: int, items: seq<Item>)

  /** Which of the three totals is asked for. */
  datatype Stat = Power | Defense | Stamina

  function ItemStat(i: Item, stat: Stat): int {
    match stat
    case Power => i.power
    case Defense => i.defense
    case Stamina => i.stamina
  }

  function BaseStat(c: CreatureStats, stat: Stat): int {
    match stat
    case Power => c.power
    case Defense => c.defense
    case Stamina => c.stamina
  }

  function ItemSum(items: seq<Item>, stat: Stat): int {
    if items == [] then 0 else ItemSum(items[..|items| - 1], stat) + ItemStat(items[|items| - 1], stat)
  }

  /** Base value plus the bonus of every attached item. */
  function Total(c: CreatureStats, stat: Stat): int {
    BaseStat(c, stat) + ItemSum(c.items, stat)
  }

  /** The loop behind `total_power`, `total_defense` and `total_stamina`. */
  method ComputeTotal(c: CreatureStats, stat: Stat) returns (v: int)
    ensures v == Total(c, stat)
  {
    v := BaseStat(c, stat);
    for k := 0 to |c.items|
      invariant v == BaseStat(c, stat) + ItemSum(c.items[..k], stat)
    {
      assert c.items[..k + 1][..k] == c.items[..k];
      v := v + ItemStat(c.items[k], stat);
    }
    assert c.items[..|c.items|] == c.items;
  }

  // ---------------------------------------------------------------- items

  function Attach(c: CreatureStats, i: Item): CreatureStats { c.(items := c.items + [i]) }

  /** The items without the first one of this id. */
  function Without(items: seq<Item>, id: bv32): seq<Item> {
    if items == [] then []
    else if items[0].id == id then items[1..]
    else [items[0]] + Without(items[1..], id)
  }

  /** attach_item and detach_item, which search and erase in place. */
  method DetachItem(c: CreatureStats, id: bv32) returns (c': CreatureStats)
    ensures c' == c.(items := Without(c.items, id))
  {
    hide Without;
    var k := 0;
    assert c.items[..0] + Without(c.items[0..], id) == Without(c.items, id) by {
      assert c.items[0..] == c.items;
    }
    while k < |c.items|
      invariant 0 <= k <= |c.items|
      invariant Without(c.items, id) == c.items[..k] + Without(c.items[k..], id)
    {
      SearchStep(c.items, k, id);
      if c.items[k].id == id {
        return c.(items := c.items[..k] + c.items[k + 1..]);
      }
      k := k + 1;
    }
    NothingLeft(c.items, id);
    c' := c;
  }

  lemma SearchStep(items: seq<Item>, k: nat, id: bv32)
    requires k < |items|
    ensures items[k].id == id ==> Without(items[k..], id) == items[k + 1..]
    ensures items[k].id != id ==>
              items[..k] + Without(items[k..], id) == items[..k + 1] + Without(items[k + 1..], id)
  {
    assert items[k..][0] == items[k] && items[k..][1..] == items[k + 1..];
    var rest := Without(items[k + 1..], id);
    assert items[..k] + ([items[k]] + rest) == items[..k + 1] + rest;
  }

  lemma NothingLeft(items: seq<Item>, id: bv32)
    ensures items[..|items|] + Without(items[|items|..], id) == items
  {}

  /** A creature without items fights with its own numbers. */
  lemma BareTotals(c: CreatureStats)
    requires c.items == []
    ensures Total(c, Power) == c.power && Total(c, Defense) == c.defense && Total(c, Stamina) == c.stamina
  {}

  /** Attaching an item adds its numbers to the totals, each to its own. */
  lemma AttachAdds(c: CreatureStats, i: Item)
    ensures Total(Attach(c, i), Power) == Total(c, Power) + i.power
    ensures Total(Attach(c, i), Defense) == Total(c, Defense) + i.defense
    ensures Total(Attach(c, i), Stamina) == Total(c, Stamina) + i.stamina
  {
    assert Attach(c, i).items[..|c.items|] == c.items;
  }

  /** Detaching what was attached restores the creature, if it had no item of that id before. */
  lemma {:induction false} DetachUndoesAttach(items: seq<Item>, i: Item)
    ensures (forall k | 0 <= k < |items| :: items[k].id != i.id) ==> Without(items + [i], i.id) == items
    decreases |items|
  {
    if items == [] {
      assert [i][1..] == [];
    } else {
      DetachUndoesAttach(items[1..], i);
      assert (items + [i])[1..] == items[1..] + [i];
    }
  }

  // ---------------------------------------------------------------- a match of two creatures

  /** Health and stamina of both sides. */
  datatype Score = Score(hpA: int, hpB: int, staA: int, staB: int)

  /** The numbers a battle starts from, after item bonuses. */
  datatype Setup = Setup(idA: bv32, idB: bv32, powA: int, powB: int, start: Score)

  function SetupOf(a: CreatureStats, b: CreatureStats): Setup {
    Setup(a.id, b.id, Total(a, Power), Total(b, Power),
          Score(Total(a, Defense), Total(b, Defense), Total(a, Stamina), Total(b, Stamina)))
  }

  /** Whose numbers a fight starts from: defense is health, and each side keeps its own. */
  lemma SetupKeepsSides(a: CreatureStats, b: CreatureStats)
    ensures var g := SetupOf(a, b);
            && g.idA == a.id && g.powA == Total(a, Power) && g.start.hpA == Total(a, Defense)
            && g.start.staA == Total(a, Stamina)
            && g.idB == b.id && g.powB == Total(b, Power) && g.start.hpB == Total(b, Defense)
            && g.start.staB == Total(b, Stamina)
  {}

  /** A zero seed stands for the XOR of the ids. */
  function EffectiveSeed(idA: bv32, idB: bv32, seed: bv32): bv32 {
    if seed != 0 then seed else idA ^ idB
  }

  lemma ZeroSeedMeansSameId(idA: bv32, idB: bv32, seed: bv32)
    ensures EffectiveSeed(idA, idB, seed) == 0 <==> idA == idB && seed == 0
  {
    if seed == 0 {
      XorIsZero(idA, idB, EffectiveSeed(idA, idB, 0));
    }
  }

  lemma XorIsZero(x: bv32, y: bv32, z: bv32)
    requires z == x ^ y
    ensures z == 0 <==> x == y
  {}

  /** Who moves first on the board: A exactly when the seed is even; for seed 0, when the ids have
      the same parity. */
  predicate AFirst(idA: bv32, idB: bv32, seed: bv32) {
    if seed != 0 then seed & 1 == 0 else idA & 1 == idB & 1
  }

  lemma ParityOfSeed(idA: bv32, idB: bv32, seed: bv32)
    ensures EffectiveSeed(idA, idB, seed) & 1 == 0 <==> AFirst(idA, idB, seed)
  {
    if seed == 0 {
      ParityOfSum(idA, idB, EffectiveSeed(idA, idB, 0));
    }
  }

  lemma ParityOfSum(x: bv32, y: bv32, z: bv32)
    requires z == x ^ y
    ensures z & 1 == 0 <==> x & 1 == y & 1
  {}

  /** Every battle loop runs while both sides stand and one of them has stamina. */
  predicate Live(s: Score) {
    s.hpA > 0 && s.hpB > 0 && (s.staA > 0 || s.staB > 0)
  }

  function Winner(g: Setup, s: Score): bv32 {
    if s.hpA >= s.hpB then g.idA else g.idB
  }
}
