/**
 * Random draws as explicit inputs. Every `random.randint(lo, hi)` and
 * `random.random() < p` of the generator reads a raw number from an
 * oracle, keyed by the place in the algorithm that draws it. Nothing is
 * assumed about the oracle, so every property proved over it holds for
 * every possible sequence of draws.
 */
module Draws {

  /** The place in the generator where a draw is made. */
  datatype Site =
    | RoomCount
    | RoomWidth(slot: nat, attempt: nat)
    | RoomHeight(slot: nat, attempt: nat)
    | RoomX(slot: nat, attempt: nat)
    | RoomY(slot: nat, attempt: nat)
    | CorridorCoin(corridor: nat)
    | DoorCoin(room: nat, x: int, y: int)
    | MonsterCoin(room: nat)
    | MonsterX(room: nat, attempt: nat)
    | MonsterY(room: nat, attempt: nat)
    | MonsterPick(room: nat, attempt: nat)
    | TreasureCoin(room: nat)
    | TreasureX(room: nat, attempt: nat)
    | TreasureY(room: nat, attempt: nat)
    | WaterCoin(room: nat)
    | WaterX(room: nat)
    | WaterY(room: nat)
    | TrapCoin(room: nat)
    | TrapX(room: nat)
    | TrapY(room: nat)

  /** A source of raw draws. */
  type Oracle = Site -> nat

  /** `random.randint(lo, hi)` fed with the raw draw `d`. */
  function RandInt(lo: int, hi: int, d: nat): (r: int)
    requires lo <= hi
    ensures lo <= r <= hi
  {
    lo + d % (hi - lo + 1)
  }

  /** Every value of the range is produced by some draw. */
  lemma RandIntCovers(lo: int, hi: int, v: int)
    requires lo <= v <= hi
    ensures RandInt(lo, hi, v - lo) == v
  {
  }

  /**
   * `random.random() < percent / 100`, fed with the raw draw `d`: a chance of
   * 0 never succeeds and a chance of 100 or more always does.
   */
  predicate Chance(d: nat, percent: nat)
    ensures percent == 0 ==> !Chance(d, percent)
    ensures percent >= 100 ==> Chance(d, percent)
  {
    d % 100 < percent
  }

  /** Both outcomes of a coin with a chance strictly between 0 and 100 are possible. */
  lemma ChanceCovers(percent: nat)
    requires 0 < percent < 100
    ensures Chance(0, percent) && !Chance(99, percent)
  {
  }

  /** The draws below `n`. */
  ghost function Below(n: nat): (b: set<nat>)
    ensures |b| == n
    ensures forall d: nat :: d in b <==> d < n
  {
    if n == 0 then {} else Below(n - 1) + {n - 1}
  }

  /**
   * Of the hundred residues a draw can have, exactly `percent` make the coin
   * succeed, so the coin succeeds with probability `percent / 100`.
   */
  lemma ChanceOdds(percent: nat)
    requires percent <= 100
    ensures |set d: nat | d < 100 && Chance(d, percent)| == percent
  {
    assert (set d: nat | d < 100 && Chance(d, percent)) == Below(percent);
  }
}
