/**
 * Plain values shared by the whole model: an optional value, grid
 * coordinates, and the loosely typed records (Python dictionaries) the
 * backend passes around as party members.
 */
module Values {

  datatype Option<+T> = None | Some(value: T)

  /** A grid coordinate: `x` is the column, `y` the row. */
  datatype Pos = Pos(x: int, y: int)

  function Abs(n: int): nat {
    if n < 0 then -n else n
  }

  /** Two cells are orthogonally adjacent: one step north, south, east or west. */
  predicate Adjacent(a: Pos, b: Pos) {
    Abs(a.x - b.x) + Abs(a.y - b.y) == 1
  }

  /**
   * A field value of a party-member record. `Point` stands for the nested
   * `{'x': .., 'y': ..}` position dictionary; `Opaque` for any other JSON
   * value the core only carries along (abilities, inventory, ...).
   */
  datatype Value =
    | Int(i: int)
    | Str(s: string)
    | Bool(b: bool)
    | Point(x: int, y: int)
    | Null
    | Opaque(tag: string)

  /** A party member is a record of named fields. */
  type Character = map<string, Value>

  const PositionKey: string := "position"
  const ClassKey: string := "characterClass"

  predicate HasPosition(c: Character) {
    PositionKey in c && c[PositionKey].Point?
  }

  function PositionOf(c: Character): Pos
    requires HasPosition(c)
  {
    Pos(c[PositionKey].x, c[PositionKey].y)
  }

  /** The record with its position field set to `p`; every other field is kept. */
  function WithPosition(c: Character, p: Pos): (r: Character)
    ensures HasPosition(r) && PositionOf(r) == p
    ensures r.Keys == c.Keys + {PositionKey}
    ensures forall k :: k in c && k != PositionKey ==> r[k] == c[k]
  {
    c[PositionKey := Point(p.x, p.y)]
  }
}
