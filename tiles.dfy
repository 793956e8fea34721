/**
 * Tiles of the dungeon grid and the fixed tile table of the generator
 * (backend/dungeon_generator.py:46-57). A grid is an `array2<Tile>` indexed
 * `[y, x]`: `Length0` is the height (rows) and `Length1` the width.
 */
module Tiles {
  import opened Values

  /**
   * A creature definition from the monster catalog. `displayChar` and
   * `color` may be missing from a catalog entry; the generator fills them in.
   */
  datatype Monster = Monster(
    name: string,
    displayChar: Option<string>,
    color: Option<string>,
    stats: map<string, Value>)

  /** One grid cell: glyph, render colour, walkability, visibility and an optional monster. */
  datatype Tile = Tile(
    glyph: string,
    color: string,
    walkable: bool,
    visible: bool,
    monster: Option<Monster>)

  const Wall: Tile := Tile("#", "#666666", false, true, None)
  const Floor: Tile := Tile(".", "#cccccc", true, true, None)
  const Door: Tile := Tile("+", "#8B4513", true, true, None)
  const StairsUp: Tile := Tile("<", "#00ff00", true, true, None)
  const StairsDown: Tile := Tile(">", "#ff0000", true, true, None)
  const Treasure: Tile := Tile("$", "#ffd700", true, true, None)
  const Item: Tile := Tile("i", "#00ffff", true, true, None)
  const Water: Tile := Tile("~", "#0000ff", false, true, None)
  const Trap: Tile := Tile("^", "#ff00ff", true, false, None)

  /** The tile drawn for a party member, in the colour of its class. */
  function PartyTile(color: string): Tile {
    Tile("@", color, true, true, None)
  }

  /** Render colours by character class (backend/dungeon_generator.py:60-70). */
  const ClassColors: map<string, string> := map[
    "Fighter" := "#ff0000",
    "Magic-User" := "#0000ff",
    "Cleric" := "#ffff00",
    "Thief" := "#00ff00",
    "Ranger" := "#ffa500",
    "Paladin" := "#ff00ff",
    "Druid" := "#008000",
    "Illusionist" := "#800080",
    "Bard" := "#00ffff"]

  /** `CLASS_COLORS.get(character_class, '#ffffff')`. */
  function ClassColor(characterClass: Value): string {
    if characterClass.Str? && characterClass.s in ClassColors
    then ClassColors[characterClass.s]
    else "#ffffff"
  }

  predicate InGrid(grid: array2<Tile>, p: Pos) {
    0 <= p.x < grid.Length1 && 0 <= p.y < grid.Length0
  }

  /** An in-bounds cell whose glyph is plain floor `.`: the only cells the pathfinder enters. */
  predicate Open(grid: array2<Tile>, p: Pos)
    reads grid
  {
    InGrid(grid, p) && grid[p.y, p.x].glyph == "."
  }

  /** Every cell of the grid. */
  ghost function Cells(grid: array2<Tile>): set<Pos> {
    set x: int, y: int | 0 <= x < grid.Length1 && 0 <= y < grid.Length0 :: Pos(x, y)
  }

  lemma InCells(grid: array2<Tile>, p: Pos)
    requires InGrid(grid, p)
    ensures p in Cells(grid)
  {
    assert Pos(p.x, p.y) == p;
  }
}
