/**
 * The AD&D rule arithmetic of backend/adnd_rules.py: racial ability
 * modifiers, class requirements, ability modifiers, THAC0, saving throws,
 * experience thresholds, and the dice-based hit points, damage, starting
 * gold and ability rolls with every die roll taken as an input.
 *
 * Python's `//` floors; Dafny's `/` on `int` is Euclidean, which agrees
 * with flooring whenever the divisor is positive, as every divisor here is.
 */
module Rules {

  type Abilities = map<string, int>

  /** The six abilities in the order `roll_ability_scores` rolls them. */
  const AbilityNames: seq<string> := ["STR", "INT", "WIS", "DEX", "CON", "CHA"]

  const HitDice: map<string, int> := map[
    "Fighter" := 10, "Paladin" := 10, "Ranger" := 10,
    "Cleric" := 8, "Druid" := 8,
    "Magic-User" := 4, "Illusionist" := 4,
    "Thief" := 6, "Bard" := 6]

  const SavingThrowTable: map<string, map<string, int>> := map[
    "Fighter" := map["Death" := 14, "Wands" := 15, "Paralysis" := 16, "Breath" := 17, "Spells" := 17],
    "Paladin" := map["Death" := 14, "Wands" := 15, "Paralysis" := 16, "Breath" := 17, "Spells" := 17],
    "Ranger" := map["Death" := 14, "Wands" := 15, "Paralysis" := 16, "Breath" := 17, "Spells" := 17],
    "Cleric" := map["Death" := 11, "Wands" := 12, "Paralysis" := 14, "Breath" := 16, "Spells" := 15],
    "Druid" := map["Death" := 11, "Wands" := 12, "Paralysis" := 14, "Breath" := 16, "Spells" := 15],
    "Magic-User" := map["Death" := 13, "Wands" := 14, "Paralysis" := 13, "Breath" := 16, "Spells" := 15],
    "Illusionist" := map["Death" := 13, "Wands" := 14, "Paralysis" := 13, "Breath" := 16, "Spells" := 15],
    "Thief" := map["Death" := 13, "Wands" := 14, "Paralysis" := 12, "Breath" := 16, "Spells" := 15],
    "Bard" := map["Death" := 14, "Wands" := 15, "Paralysis" := 14, "Breath" := 16, "Spells" := 16]]

  const ClassRequirements: map<string, Abilities> := map[
    "Fighter" := map["STR" := 9],
    "Paladin" := map["STR" := 12, "CON" := 9, "WIS" := 13, "CHA" := 17],
    "Ranger" := map["STR" := 13, "DEX" := 13, "CON" := 14, "WIS" := 14],
    "Cleric" := map["WIS" := 9],
    "Druid" := map["WIS" := 12, "CHA" := 15],
    "Magic-User" := map["INT" := 9],
    "Illusionist" := map["DEX" := 16, "INT" := 15],
    "Thief" := map["DEX" := 9],
    "Bard" := map["DEX" := 12, "INT" := 13, "CHA" := 15]]

  const RacialModifiers: map<string, Abilities> := map[
    "Human" := map[],
    "Elf" := map["DEX" := 1, "CON" := -1],
    "Dwarf" := map["CON" := 1, "CHA" := -1],
    "Halfling" := map["DEX" := 1, "STR" := -1],
    "Gnome" := map["INT" := 1, "WIS" := 1, "STR" := -1],
    "Half-Orc" := map["STR" := 1, "CON" := 1, "CHA" := -2, "INT" := -1],
    "Half-Elf" := map["CHA" := 1],
    "Lizardfolk" := map["CON" := 1, "DEX" := 1, "INT" := -1, "CHA" := -1],
    "Tabaxi" := map["DEX" := 2, "STR" := -1],
    "Goblin" := map["DEX" := 1, "STR" := -1, "CON" := -1]]

  const RacialClassRestrictions: map<string, seq<string>> := map[
    "Lizardfolk" := ["Paladin"],
    "Goblin" := ["Paladin"]]

  const BaseXp: map<string, int> := map[
    "Fighter" := 2000, "Paladin" := 2250, "Ranger" := 2250,
    "Cleric" := 1500, "Druid" := 2000,
    "Magic-User" := 2500, "Illusionist" := 2500,
    "Thief" := 1250, "Bard" := 2000]

  /** A dice formula `NdS`: N dice of S sides. */
  datatype Dice = Dice(count: nat, sides: nat)

  const GoldDice: map<string, Dice> := map[
    "Fighter" := Dice(5, 4), "Paladin" := Dice(6, 4), "Ranger" := Dice(5, 4),
    "Magic-User" := Dice(2, 4), "Illusionist" := Dice(2, 4),
    "Cleric" := Dice(3, 4), "Druid" := Dice(2, 4), "Thief" := Dice(2, 4),
    "Assassin" := Dice(4, 4), "Monk" := Dice(2, 4), "Bard" := Dice(3, 4)]

  const GoldMultiplier: int := 10

  function Max(a: int, b: int): int {
    if a >= b then a else b
  }

  function Sum(s: seq<int>): int {
    if s == [] then 0 else Sum(s[..|s| - 1]) + s[|s| - 1]
  }

  /** Dice rolls each within `[1, sides]` sum to between the count and count times sides. */
  lemma {:induction false} SumBounds(s: seq<int>, sides: int)
    requires forall i :: 0 <= i < |s| ==> 1 <= s[i] <= sides
    ensures |s| <= Sum(s) <= |s| * sides
  {
    if s != [] {
      var init := s[..|s| - 1];
      SumBounds(init, sides);
      assert Sum(s) == Sum(init) + s[|s| - 1];
      assert |s| * sides == |init| * sides + sides;
    }
  }

  // ---------------------------------------------------------------- abilities

  /** `roll_ability_scores`: the rolls the 3d6 method consumes, three per ability. */
  predicate DiceRolls(rolls: seq<int>, sides: int) {
    forall i :: 0 <= i < |rolls| ==> 1 <= rolls[i] <= sides
  }

  /** The 3d6 total for the `i`-th ability: its own three consecutive rolls. */
  function ThreeDice(rolls: seq<int>, i: nat): (total: int)
    requires 3 * i + 2 < |rolls| && DiceRolls(rolls, 6)
    ensures 3 <= total <= 18
  {
    rolls[3 * i] + rolls[3 * i + 1] + rolls[3 * i + 2]
  }

  /** No ability name repeats, so each roll lands on a new ability. */
  lemma NamesDistinct(i: nat)
    requires i < |AbilityNames|
    ensures AbilityNames[i] !in AbilityNames[..i]
    ensures forall j :: 0 <= j < i ==> AbilityNames[j] != AbilityNames[i]
  {
  }

  /** After rolling the first `i` abilities: exactly those are scored, each by its own three dice. */
  ghost predicate Rolled(abilities: Abilities, rolls: seq<int>, i: nat)
    requires i <= |AbilityNames| && |rolls| == 3 * |AbilityNames| && DiceRolls(rolls, 6)
  {
    (forall a :: a in abilities <==> a in AbilityNames[..i]) &&
    |abilities| == i &&
    (forall j :: 0 <= j < i ==> AbilityNames[j] in abilities && abilities[AbilityNames[j]] == ThreeDice(rolls, j)) &&
    forall a :: a in abilities ==> 3 <= abilities[a] <= 18
  }

  lemma RollNext(abilities: Abilities, rolls: seq<int>, i: nat)
    requires i < |AbilityNames| && |rolls| == 3 * |AbilityNames| && DiceRolls(rolls, 6)
    requires Rolled(abilities, rolls, i)
    ensures Rolled(abilities[AbilityNames[i] := ThreeDice(rolls, i)], rolls, i + 1)
  {
    NamesDistinct(i);
    assert AbilityNames[..i + 1] == AbilityNames[..i] + [AbilityNames[i]];
  }

  /**
   * `roll_ability_scores`: with the `3d6` method each of the six abilities
   * is the sum of its own three rolls, so six scores in `[3, 18]`; any
   * other method yields no scores.
   */
  method RollAbilityScores(rollMethod: string, rolls: seq<int>) returns (abilities: Abilities)
    requires rollMethod == "3d6" ==> |rolls| == 3 * |AbilityNames| && DiceRolls(rolls, 6)
    ensures rollMethod != "3d6" ==> abilities == map[]
    ensures rollMethod == "3d6" ==> (forall a :: a in abilities <==> a in AbilityNames) && |abilities| == 6
    ensures rollMethod == "3d6" ==> forall i :: 0 <= i < |AbilityNames| ==>
      AbilityNames[i] in abilities && abilities[AbilityNames[i]] == ThreeDice(rolls, i)
    ensures forall a :: a in abilities ==> 3 <= abilities[a] <= 18
  {
    abilities := map[];
    if rollMethod == "3d6" {
      for i := 0 to |AbilityNames|
        invariant Rolled(abilities, rolls, i)
      {
        RollNext(abilities, rolls, i);
        abilities := abilities[AbilityNames[i] := ThreeDice(rolls, i)];
      }
      assert AbilityNames[..|AbilityNames|] == AbilityNames;
    }
  }

  /** `max(3, min(18, v))`: a score forced into `[3, 18]`, unchanged when already there. */
  function Clamp(v: int): (r: int)
    ensures 3 <= r <= 18
    ensures 3 <= v <= 18 ==> r == v
    ensures v < 3 ==> r == 3
    ensures v > 18 ==> r == 18
  {
    Max(3, if v <= 18 then v else 18)
  }

  /** The race's modifier table; an unknown race has none. */
  function ModifiersOf(race: string): Abilities {
    if race in RacialModifiers then RacialModifiers[race] else map[]
  }

  /** The scores after the race's modifiers, each modified score clamped. */
  function Modified(abilities: Abilities, race: string): (modified: Abilities)
    requires ModifiersOf(race).Keys <= abilities.Keys
    ensures modified.Keys == abilities.Keys
    ensures forall a :: a in ModifiersOf(race) ==> 3 <= modified[a] <= 18
  {
    var mods := ModifiersOf(race);
    map a | a in abilities :: if a in mods then Clamp(abilities[a] + mods[a]) else abilities[a]
  }

  /**
   * `apply_racial_modifiers`: walks the race's modifier table, replacing each
   * listed score by the clamped sum; the result is `Modified`.
   */
  method ApplyRacialModifiers(abilities: Abilities, race: string) returns (modified: Abilities)
    requires ModifiersOf(race).Keys <= abilities.Keys
    ensures modified == Modified(abilities, race)
  {
    var mods := ModifiersOf(race);
    var todo := mods.Keys;
    modified := abilities;
    while todo != {}
      invariant todo <= mods.Keys
      invariant modified.Keys == abilities.Keys
      invariant forall a :: a in abilities ==>
        modified[a] == if a in mods && a !in todo then Clamp(abilities[a] + mods[a]) else abilities[a]
      decreases todo
    {
      var a :| a in todo;
      modified := modified[a := Clamp(modified[a] + mods[a])];
      todo := todo - {a};
    }
  }

  /**
   * Every score the race modifies ends in `[3, 18]`, and is the plain sum
   * when that sum is in range; every other score, and all of them for an
   * unknown race, is kept.
   */
  lemma ModifiedSpec(abilities: Abilities, race: string)
    requires ModifiersOf(race).Keys <= abilities.Keys
    ensures Modified(abilities, race).Keys == abilities.Keys
    ensures forall a :: a in ModifiersOf(race) ==> 3 <= Modified(abilities, race)[a] <= 18
    ensures forall a :: a in ModifiersOf(race) && 3 <= abilities[a] + ModifiersOf(race)[a] <= 18 ==>
      Modified(abilities, race)[a] == abilities[a] + ModifiersOf(race)[a]
    ensures forall a :: a in abilities && a !in ModifiersOf(race) ==> Modified(abilities, race)[a] == abilities[a]
    ensures race !in RacialModifiers ==> Modified(abilities, race) == abilities
  {
  }

  /** An elf with all scores 10 gets DEX 11 and CON 9. */
  lemma ElfOnTens()
    ensures var tens := map["STR" := 10, "DEX" := 10, "CON" := 10, "INT" := 10, "WIS" := 10, "CHA" := 10];
      Modified(tens, "Elf")["DEX"] == 11 && Modified(tens, "Elf")["CON"] == 9 &&
      Modified(tens, "Elf")["STR"] == 10
  {
  }

  /** The class's minimum scores; an unknown class has none. */
  function RequirementsOf(characterClass: string): Abilities {
    if characterClass in ClassRequirements then ClassRequirements[characterClass] else map[]
  }

  predicate Restricted(race: string, characterClass: string) {
    race in RacialClassRestrictions && characterClass in RacialClassRestrictions[race]
  }

  /**
   * `check_class_requirements`: a race that bars the class fails; otherwise
   * every listed minimum must be met.
   */
  function CheckClassRequirements(abilities: Abilities, characterClass: string, race: string): (ok: bool)
    requires !Restricted(race, characterClass) ==> RequirementsOf(characterClass).Keys <= abilities.Keys
    ensures Restricted(race, characterClass) ==> !ok
    ensures ok <==> (!Restricted(race, characterClass) &&
      forall a :: a in RequirementsOf(characterClass) ==> abilities[a] >= RequirementsOf(characterClass)[a])
    ensures characterClass !in ClassRequirements ==> (ok <==> !Restricted(race, characterClass))
  {
    if Restricted(race, characterClass) then false
    else forall a :: a in RequirementsOf(characterClass) ==> abilities[a] >= RequirementsOf(characterClass)[a]
  }

  /** Lizardfolk and goblins can never be paladins, whatever their scores. */
  lemma NoLizardfolkOrGoblinPaladins(abilities: Abilities)
    ensures !CheckClassRequirements(abilities, "Paladin", "Lizardfolk")
    ensures !CheckClassRequirements(abilities, "Paladin", "Goblin")
  {
    assert "Paladin" in RacialClassRestrictions["Lizardfolk"];
    assert "Paladin" in RacialClassRestrictions["Goblin"];
  }

  /** Raising scores never loses a class: the check is monotone in every score. */
  lemma RequirementsMonotone(low: Abilities, high: Abilities, characterClass: string, race: string)
    requires RequirementsOf(characterClass).Keys <= low.Keys <= high.Keys
    requires forall a :: a in low ==> low[a] <= high[a]
    requires CheckClassRequirements(low, characterClass, race)
    ensures CheckClassRequirements(high, characterClass, race)
  {
  }

  /** `get_ability_modifier`: `(score - 10) // 2`, the floor of half the distance from 10. */
  function AbilityModifier(score: int): (m: int)
    ensures 2 * m <= score - 10 < 2 * m + 2
  {
    (score - 10) / 2
  }

  /** A higher score never gives a lower modifier. */
  lemma AbilityModifierMonotone(s: int, t: int)
    requires s <= t
    ensures AbilityModifier(s) <= AbilityModifier(t)
  {
    var m, n := AbilityModifier(s), AbilityModifier(t);
    assert 2 * m <= s - 10 <= t - 10 < 2 * n + 2;
  }

  // ---------------------------------------------------------------- level tables

  /** `(level - 1) // 3`: one step per three levels, floored. */
  function LevelBonus(level: int): (b: int)
    ensures 3 * b <= level - 1 < 3 * b + 3
  {
    (level - 1) / 3
  }

  lemma LevelBonusMonotone(l: int, k: int)
    requires l <= k
    ensures LevelBonus(l) <= LevelBonus(k)
  {
    var b, c := LevelBonus(l), LevelBonus(k);
    assert 3 * b <= l - 1 <= k - 1 < 3 * c + 3;
  }

  /** `calculate_thac0`: 20 lowered by one every three levels; the class plays no part. */
  function Thac0(characterClass: string, level: int): (t: int)
    ensures 3 * (20 - t) <= level - 1 < 3 * (20 - t) + 3
  {
    20 - LevelBonus(level)
  }

  /** THAC0 does not depend on the class and never rises with level. */
  lemma Thac0Spec(c: string, d: string, level: int, higher: int)
    requires level <= higher
    ensures Thac0(c, level) == Thac0(d, level)
    ensures Thac0(c, higher) <= Thac0(c, level)
    ensures level >= 1 ==> Thac0(c, level) <= 20
  {
    LevelBonusMonotone(level, higher);
    if level >= 1 {
      LevelBonusMonotone(1, level);
    }
  }

  /** The class's base saving throws; an unknown class has none. */
  function BaseSaves(characterClass: string): map<string, int> {
    if characterClass in SavingThrowTable then SavingThrowTable[characterClass] else map[]
  }

  /** One saving throw at a level: the base improved by the level bonus, never below 2. */
  function SaveAt(base: int, level: int): (save: int)
    ensures save >= 2
    ensures level >= 1 ==> save <= Max(2, base)
  {
    Max(2, base - LevelBonus(level))
  }

  /**
   * `calculate_saving_throws`: a copy of the class's table with every entry
   * improved for the level; an unknown class gives an empty table.
   */
  method CalculateSavingThrows(characterClass: string, level: int) returns (saves: map<string, int>)
    ensures saves.Keys == BaseSaves(characterClass).Keys
    ensures forall s :: s in saves ==> saves[s] == SaveAt(BaseSaves(characterClass)[s], level)
    ensures characterClass !in SavingThrowTable ==> saves == map[]
  {
    var base := BaseSaves(characterClass);
    var bonus := LevelBonus(level);
    saves := base;
    var todo := base.Keys;
    while todo != {}
      invariant todo <= base.Keys && saves.Keys == base.Keys
      invariant forall s :: s in saves ==> saves[s] == if s in todo then base[s] else Max(2, base[s] - bonus)
      decreases todo
    {
      var s :| s in todo;
      saves := saves[s := Max(2, saves[s] - bonus)];
      todo := todo - {s};
    }
  }

  /** Every saving throw is at least 2, never exceeds its base at level 1 or above, and never worsens with level. */
  lemma SaveAtSpec(base: int, level: int, higher: int)
    requires level <= higher
    ensures SaveAt(base, level) >= 2
    ensures level >= 1 ==> SaveAt(base, level) <= Max(2, base)
    ensures SaveAt(base, higher) <= SaveAt(base, level)
  {
    LevelBonusMonotone(level, higher);
    if level >= 1 {
      LevelBonusMonotone(1, level);
    }
  }

  /** `2 ** e` exactly, as Python computes it for any integer `e` (a fraction for negative `e`). */
  function PowerOfTwo(e: int): (p: real)
    ensures p > 0.0
    decreases if e < 0 then -e else e
  {
    if e == 0 then 1.0
    else if e > 0 then 2.0 * PowerOfTwo(e - 1)
    else PowerOfTwo(e + 1) / 2.0
  }

  function NatPowerOfTwo(e: nat): (p: nat)
    ensures p >= 1
  {
    if e == 0 then 1 else 2 * NatPowerOfTwo(e - 1)
  }

  /** `calculate_xp_for_level`: the class's base (2000 when unknown) times `2 ** (level - 1)`. */
  function XpForLevel(characterClass: string, level: int): (xp: real)
    ensures xp > 0.0
  {
    (if characterClass in BaseXp then BaseXp[characterClass] else 2000) as real * PowerOfTwo(level - 1)
  }

  /** Each level needs twice the experience of the one before. */
  lemma XpDoubles(characterClass: string, level: int)
    ensures XpForLevel(characterClass, level + 1) == 2.0 * XpForLevel(characterClass, level)
  {
  }

  /** From level 1 on the threshold is the whole number base times a power of two, and it is positive. */
  lemma {:induction false} XpIsWhole(characterClass: string, level: int)
    requires level >= 1
    ensures XpForLevel(characterClass, level) ==
      ((if characterClass in BaseXp then BaseXp[characterClass] else 2000) * NatPowerOfTwo(level - 1)) as real
    ensures XpForLevel(characterClass, level) > 0.0
    decreases level
  {
    if level > 1 {
      XpIsWhole(characterClass, level - 1);
    }
  }

  // ---------------------------------------------------------------- dice

  function HitDie(characterClass: string): int {
    if characterClass in HitDice then HitDice[characterClass] else 6
  }

  /** The gains of the levels after the first: each roll plus the modifier, at least 1 per level. */
  function LaterGains(rolls: seq<int>, conModifier: int): int {
    if rolls == [] then 0 else LaterGains(rolls[..|rolls| - 1], conModifier) + Max(1, rolls[|rolls| - 1] + conModifier)
  }

  lemma {:induction false} LaterGainsBounds(rolls: seq<int>, conModifier: int, die: int)
    requires forall i :: 0 <= i < |rolls| ==> rolls[i] <= die
    ensures |rolls| <= LaterGains(rolls, conModifier) <= |rolls| * Max(1, die + conModifier)
  {
    if rolls != [] {
      var init, m := rolls[..|rolls| - 1], Max(1, die + conModifier);
      LaterGainsBounds(init, conModifier, die);
      assert LaterGains(rolls, conModifier) == LaterGains(init, conModifier) + Max(1, rolls[|rolls| - 1] + conModifier);
      assert LaterGains(init, conModifier) <= |init| * m;
      assert |rolls| * m == |init| * m + m;
    }
  }

  /** The hit points for the rolls: the first level's roll plus the modifier, then the later gains; at least 1. */
  function HitPoints(rolls: seq<int>, conModifier: int): (hp: int)
    requires |rolls| >= 1
    ensures hp >= 1
  {
    Max(1, rolls[0] + conModifier + LaterGains(rolls[1..], conModifier))
  }

  /**
   * `calculate_hit_points` with the die rolls as input: one roll for the
   * first level, then one per further level.
   */
  method CalculateHitPoints(characterClass: string, level: int, conModifier: int, rolls: seq<int>) returns (hp: int)
    requires |rolls| == 1 + Max(0, level - 1) && DiceRolls(rolls, HitDie(characterClass))
    ensures hp == HitPoints(rolls, conModifier)
    ensures hp >= 1
  {
    hp := rolls[0] + conModifier;
    for i := 1 to |rolls|
      invariant hp == rolls[0] + conModifier + LaterGains(rolls[1..i], conModifier)
    {
      assert rolls[1..i + 1][..i - 1] == rolls[1..i];
      hp := hp + Max(1, rolls[i] + conModifier);
    }
    assert rolls[1..|rolls|] == rolls[1..];
    hp := Max(1, hp);
  }

  /**
   * Hit points are at least 1 and at least the worst case (every roll 1),
   * at most the best roll's worth per level; a first-level character with
   * no constitution modifier has between 1 and the hit die.
   */
  lemma HitPointsBounds(rolls: seq<int>, conModifier: int, die: int)
    requires |rolls| >= 1 && DiceRolls(rolls, die)
    ensures Max(1, |rolls| + conModifier) <= HitPoints(rolls, conModifier)
    ensures HitPoints(rolls, conModifier) <= |rolls| * Max(1, die + conModifier)
    ensures |rolls| == 1 && conModifier == 0 ==> 1 <= HitPoints(rolls, conModifier) <= die
  {
    LaterGainsBounds(rolls[1..], conModifier, die);
  }

  /** `calculate_damage` with the rolls as input: their sum plus the strength modifier, at least 1. */
  function Damage(rolls: seq<int>, strengthModifier: int): (d: int)
    ensures d >= 1
  {
    Max(1, Sum(rolls) + strengthModifier)
  }

  /** With every roll in `[1, sides]`, damage lies between the least and the greatest the dice allow. */
  lemma DamageBounds(rolls: seq<int>, sides: int, strengthModifier: int)
    requires DiceRolls(rolls, sides)
    ensures Max(1, |rolls| + strengthModifier) <= Damage(rolls, strengthModifier)
    ensures Damage(rolls, strengthModifier) <= Max(1, |rolls| * sides + strengthModifier)
  {
    SumBounds(rolls, sides);
  }

  /**
   * `calculate_starting_gold` with the rolls as input: nothing for a class
   * without a gold rule, otherwise ten times the sum of the class's dice.
   */
  function StartingGold(characterClass: string, rolls: seq<int>): (gold: int)
    requires characterClass in GoldDice ==> |rolls| == GoldDice[characterClass].count
    ensures characterClass !in GoldDice ==> gold == 0
    ensures gold % GoldMultiplier == 0
  {
    if characterClass !in GoldDice then 0 else Sum(rolls) * GoldMultiplier
  }

  /** Starting gold is 0 for an unknown class and otherwise between 10·N and 10·N·S for `NdS`. */
  lemma StartingGoldBounds(characterClass: string, rolls: seq<int>)
    requires characterClass in GoldDice ==>
      |rolls| == GoldDice[characterClass].count && DiceRolls(rolls, GoldDice[characterClass].sides)
    ensures characterClass !in GoldDice ==> StartingGold(characterClass, rolls) == 0
    ensures characterClass in GoldDice ==>
      var dice := GoldDice[characterClass];
      GoldMultiplier * dice.count <= StartingGold(characterClass, rolls) <= GoldMultiplier * dice.count * dice.sides
  {
    if characterClass in GoldDice {
      SumBounds(rolls, GoldDice[characterClass].sides);
    }
  }
}
