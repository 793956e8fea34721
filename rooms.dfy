/** Rectangular rooms (backend/dungeon_generator.py:7-22). */
module Rooms {
  import opened Values

  /** A room: top-left corner `(x, y)` and its size in tiles. */
  datatype Room = Room(x: int, y: int, width: int, height: int)

  /** `Room.center`: the cell at half the width and height, rounded down. */
  function Center(r: Room): (c: Pos)
    ensures 2 * (c.x - r.x) <= r.width < 2 * (c.x - r.x) + 2
    ensures 2 * (c.y - r.y) <= r.height < 2 * (c.y - r.y) + 2
  {
    Pos(r.x + r.width / 2, r.y + r.height / 2)
  }

  /** The cell `(px, py)` lies in the room's rectangle. */
  predicate InRoom(r: Room, px: int, py: int) {
    r.x <= px < r.x + r.width && r.y <= py < r.y + r.height
  }

  /** The cell lies in the room without touching its outermost rows and columns. */
  predicate InInterior(r: Room, px: int, py: int) {
    r.x + 1 <= px <= r.x + r.width - 2 && r.y + 1 <= py <= r.y + r.height - 2
  }

  const Padding: int := 1

  /**
   * `Room.intersects` with the default padding of one tile: two rooms count
   * as apart exactly when at least two whole columns or two whole rows of
   * tiles lie between them.
   */
  predicate Intersects(a: Room, b: Room)
    ensures !Intersects(a, b) <==>
      b.x - (a.x + a.width) >= 2 || a.x - (b.x + b.width) >= 2 ||
      b.y - (a.y + a.height) >= 2 || a.y - (b.y + b.height) >= 2
  {
    a.x - Padding <= b.x + b.width &&
    a.x + a.width + Padding >= b.x &&
    a.y - Padding <= b.y + b.height &&
    a.y + a.height + Padding >= b.y
  }

  lemma IntersectsSymmetric(a: Room, b: Room)
    ensures Intersects(a, b) <==> Intersects(b, a)
  {
  }

  /** Rooms that do not intersect share no cell, and not even a cell next to one another's. */
  lemma ApartRoomsAreDisjoint(a: Room, b: Room, px: int, py: int, qx: int, qy: int)
    requires !Intersects(a, b)
    requires InRoom(a, px, py) && InRoom(b, qx, qy)
    ensures Abs(px - qx) + Abs(py - qy) >= 2
  {
  }

  /** The centre of a room with at least one row and one column lies inside it. */
  lemma CenterInside(r: Room)
    requires r.width >= 1 && r.height >= 1
    ensures InRoom(r, Center(r).x, Center(r).y)
  {
  }

  /** The centre of a room at least three tiles wide and high lies in its interior. */
  lemma CenterInInterior(r: Room)
    requires r.width >= 3 && r.height >= 3
    ensures InInterior(r, Center(r).x, Center(r).y)
  {
  }

  /** `any(new_room.intersects(room) for room in rooms)`. */
  function IntersectsAny(r: Room, rooms: seq<Room>): (b: bool)
    ensures b <==> exists k :: 0 <= k < |rooms| && Intersects(r, rooms[k])
  {
    if rooms == [] then false
    else Intersects(r, rooms[0]) || IntersectsAny(r, rooms[1..])
  }

  /** No two rooms of the list intersect. */
  ghost predicate PairwiseApart(rooms: seq<Room>) {
    forall i, j :: 0 <= i < j < |rooms| ==> !Intersects(rooms[i], rooms[j])
  }

  /** Appending a room that intersects none of the list keeps the list pairwise apart. */
  lemma AppendKeepsApart(rooms: seq<Room>, r: Room)
    requires PairwiseApart(rooms) && !IntersectsAny(r, rooms)
    ensures PairwiseApart(rooms + [r])
  {
    var rs := rooms + [r];
    forall i, j | 0 <= i < j < |rs| ensures !Intersects(rs[i], rs[j]) {
      if j == |rooms| {
        assert !Intersects(r, rooms[i]);
        IntersectsSymmetric(r, rooms[i]);
      } else {
        assert rs[i] == rooms[i] && rs[j] == rooms[j];
      }
    }
  }
}
