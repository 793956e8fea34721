/**
 * The level generator (backend/dungeon_generator.py:24-350): a
 * `height` × `width` grid of tiles that every step of `generate` changes in
 * place, the list of rooms it has placed, and the monster catalog it fills
 * in on use. Random draws come from an `Oracle` (module `Draws`).
 */
module Dungeon {
  import opened Values
  import opened Tiles
  import opened Draws
  import opened Rooms
  import opened Corridors
  import opened Pathfinding

  /** A room `_try_add_room` can produce on a `width` × `height` map. */
  predicate Fits(r: Room, width: int, height: int) {
    5 <= r.width <= 12 && 5 <= r.height <= 8 &&
    1 <= r.x && r.x + r.width <= width - 1 &&
    1 <= r.y && r.y + r.height <= height - 1
  }

  /** A cell off the outermost rows and columns of the map. */
  predicate Inner(width: int, height: int, x: int, y: int) {
    1 <= x <= width - 2 && 1 <= y <= height - 2
  }

  /** Cell `(x, y)` lies in the disc `reveal_area` uncovers around `(cx, cy)`. */
  predicate InDisc(cx: int, cy: int, radius: int, x: int, y: int) {
    var dx, dy := x - cx, y - cy;
    -radius <= dx <= radius && -radius <= dy <= radius && dx * dx + dy * dy <= radius * radius
  }

  /** The tile after `_add_fog_of_war`: walls stay visible, everything else is hidden. */
  function Fogged(t: Tile): (r: Tile)
    ensures r.glyph == t.glyph && r.monster == t.monster
    ensures r.visible <==> t.glyph == "#" && t.visible
  {
    if t.glyph == "#" then t else t.(visible := false)
  }

  /** Fogging twice is fogging once. */
  lemma FoggedIdempotent(t: Tile)
    ensures Fogged(Fogged(t)) == Fogged(t)
  {
  }

  /** `str.upper` on one character, for ASCII letters. */
  function UpperChar(c: char): (u: char)
    ensures 'a' <= c <= 'z' ==> u as int == c as int - 32
    ensures !('a' <= c <= 'z') ==> u == c
  {
    if 'a' <= c <= 'z' then (c as int - 32) as char else c
  }

  /** The tile of a placed monster: its own glyph and colour, blocking, visible. */
  function MonsterTile(m: Monster): Tile
    requires m.displayChar.Some? && m.color.Some?
  {
    Tile(m.displayChar.value, m.color.value, false, true, Some(m))
  }

  /** A catalog entry as the generator completes it on first use, when its name is not empty. */
  function Completed(m: Monster): (r: Monster)
    requires m.displayChar.Some? || m.name != []
    ensures r.name == m.name && r.stats == m.stats
    ensures r.displayChar.Some? && r.color.Some?
    ensures m.displayChar.Some? ==> r.displayChar == m.displayChar
    ensures m.displayChar.None? ==> r.displayChar == Some([UpperChar(m.name[0])])
    ensures m.color.Some? ==> r.color == m.color
    ensures m.color.None? ==> r.color == Some("#ff0000")
  {
    var withChar := if m.displayChar.Some? then m else m.(displayChar := Some([UpperChar(m.name[0])]));
    if withChar.color.Some? then withChar else withChar.(color := Some("#ff0000"))
  }

  /** A catalog entry changes only by completion. */
  predicate CompletesOrKeeps(before: Monster, after: Monster) {
    after == before || ((before.displayChar.Some? || before.name != []) && after == Completed(before))
  }

  /** Completing an entry a second time changes nothing. */
  lemma CompletedIdempotent(m: Monster)
    requires m.displayChar.Some? || m.name != []
    ensures Completed(Completed(m)) == Completed(m)
  {
  }

  /** The room candidate drawn at attempt `attempt` of slot `slot` (backend/dungeon_generator.py:111-118). */
  function Candidate(width: int, height: int, slot: nat, attempt: nat, rng: Oracle): (r: Room)
    requires width >= 14 && height >= 10
    ensures Fits(r, width, height)
  {
    var w := RandInt(5, 12, rng(RoomWidth(slot, attempt)));
    var h := RandInt(5, 8, rng(RoomHeight(slot, attempt)));
    var x := RandInt(1, width - w - 1, rng(RoomX(slot, attempt)));
    var y := RandInt(1, height - h - 1, rng(RoomY(slot, attempt)));
    Room(x, y, w, h)
  }

  /** Every room that fits the map is a possible candidate. */
  lemma CandidateCovers(width: int, height: int, slot: nat, attempt: nat, r: Room)
    requires width >= 14 && height >= 10 && Fits(r, width, height)
    ensures exists rng: Oracle :: Candidate(width, height, slot, attempt, rng) == r
  {
    var rng: Oracle := s =>
      if s == RoomWidth(slot, attempt) then r.width - 5
      else if s == RoomHeight(slot, attempt) then r.height - 5
      else if s == RoomX(slot, attempt) then r.x - 1
      else if s == RoomY(slot, attempt) then r.y - 1
      else 0;
    assert rng(RoomWidth(slot, attempt)) == r.width - 5 && rng(RoomHeight(slot, attempt)) == r.height - 5;
    assert rng(RoomX(slot, attempt)) == r.x - 1 && rng(RoomY(slot, attempt)) == r.y - 1;
    RandIntCovers(5, 12, r.width);
    RandIntCovers(5, 8, r.height);
    RandIntCovers(1, width - r.width - 1, r.x);
    RandIntCovers(1, height - r.height - 1, r.y);
    assert Candidate(width, height, slot, attempt, rng) == r;
  }

  /** Whether corridor `i` runs along a row first (backend/dungeon_generator.py:148). */
  predicate HorizontalFirst(rng: Oracle, i: nat) {
    Chance(rng(CorridorCoin(i)), 50)
  }

  /** `p` is on one of the first `n` corridors `_connect_rooms` carves between consecutive room centres. */
  ghost predicate OnCorridors(rooms: seq<Room>, rng: Oracle, n: nat, p: Pos)
    requires n < |rooms| || n == 0
  {
    exists i :: 0 <= i < n && InCorridor(Center(rooms[i]), Center(rooms[i + 1]), HorizontalFirst(rng, i), p)
  }

  /** The interior cell a water draw picks in room `k` (backend/dungeon_generator.py:251-252). */
  function WaterSpot(r: Room, k: nat, rng: Oracle): (p: Pos)
    requires r.width >= 3 && r.height >= 3
    ensures InInterior(r, p.x, p.y)
  {
    Pos(RandInt(r.x + 1, r.x + r.width - 2, rng(WaterX(k))), RandInt(r.y + 1, r.y + r.height - 2, rng(WaterY(k))))
  }

  /** The interior cell a trap draw picks in room `k` (backend/dungeon_generator.py:259-260). */
  function TrapSpot(r: Room, k: nat, rng: Oracle): (p: Pos)
    requires r.width >= 3 && r.height >= 3
    ensures InInterior(r, p.x, p.y)
  {
    Pos(RandInt(r.x + 1, r.x + r.width - 2, rng(TrapX(k))), RandInt(r.y + 1, r.y + r.height - 2, rng(TrapY(k))))
  }

  /** A catalog entry with both a display character and a colour. */
  predicate Complete(m: Monster) {
    m.displayChar.Some? && m.color.Some?
  }

  /** Completion leaves a complete entry as it is. */
  lemma CompletedKeepsComplete(m: Monster)
    requires Complete(m)
    ensures Completed(m) == m
  {
  }

  /** Completing entry `i` of a catalog keeps every complete entry in it. */
  lemma CompletionKeepsComplete(catalog: seq<Monster>, i: nat, m: Monster)
    requires i < |catalog| && (catalog[i].displayChar.Some? || catalog[i].name != [])
    requires m in catalog && Complete(m)
    ensures m in catalog[i := Completed(catalog[i])]
  {
    var j :| 0 <= j < |catalog| && catalog[j] == m;
    if j == i {
      CompletedKeepsComplete(m);
    }
    assert catalog[i := Completed(catalog[i])][j] == m;
  }

  /** The catalog after placing monsters: same length, each entry kept or completed. */
  predicate CatalogEvolves(before: seq<Monster>, after: seq<Monster>) {
    |after| == |before| && forall i :: 0 <= i < |before| ==> CompletesOrKeeps(before[i], after[i])
  }

  /** `(x, y)` lies in the interior of one of the rooms strictly between the first and the last. */
  ghost predicate InMiddleRoom(rooms: seq<Room>, x: int, y: int) {
    exists k :: 1 <= k < |rooms| - 1 && InInterior(rooms[k], x, y)
  }

  /** Some room among the first `n` contains `(x, y)`. */
  ghost predicate InSomeRoom(rooms: seq<Room>, n: nat, x: int, y: int)
    requires n <= |rooms|
  {
    exists k :: 0 <= k < n && InRoom(rooms[k], x, y)
  }

  /** Rooms at least three tiles wide and high, so that every one of them has an interior. */
  predicate Roomy(rooms: seq<Room>) {
    forall k :: 0 <= k < |rooms| ==> rooms[k].width >= 3 && rooms[k].height >= 3
  }

  /** Among the first `n` rooms, one drew water and its water cell is `p` (backend/dungeon_generator.py:249-253). */
  ghost predicate WaterAt(rooms: seq<Room>, rng: Oracle, n: nat, p: Pos)
    requires Roomy(rooms) && n <= |rooms|
  {
    exists k :: 0 <= k < n && Chance(rng(WaterCoin(k)), 20) && p == WaterSpot(rooms[k], k, rng)
  }

  /** Among the middle rooms before room `n`, one drew a trap and its trap cell is `p` (backend/dungeon_generator.py:257-262). */
  ghost predicate TrapAt(rooms: seq<Room>, rng: Oracle, n: nat, p: Pos)
    requires Roomy(rooms) && n <= Max(1, |rooms|)
  {
    exists k :: 1 <= k < n && Chance(rng(TrapCoin(k)), 30) && p == TrapSpot(rooms[k], k, rng)
  }

  /** The water cells up to room `k + 1` are those up to room `k` and room `k`'s own. */
  lemma WaterAtNext(rooms: seq<Room>, rng: Oracle, k: nat, p: Pos)
    requires Roomy(rooms) && k < |rooms|
    ensures WaterAt(rooms, rng, k + 1, p) <==>
      WaterAt(rooms, rng, k, p) || (Chance(rng(WaterCoin(k)), 20) && p == WaterSpot(rooms[k], k, rng))
  {
  }

  /** The trap cells up to room `k + 1` are those up to room `k` and room `k`'s own. */
  lemma TrapAtNext(rooms: seq<Room>, rng: Oracle, k: nat, p: Pos)
    requires Roomy(rooms) && 1 <= k < |rooms|
    ensures TrapAt(rooms, rng, k + 1, p) <==>
      TrapAt(rooms, rng, k, p) || (Chance(rng(TrapCoin(k)), 30) && p == TrapSpot(rooms[k], k, rng))
  {
  }

  /** Room `k`'s trap cell is no earlier room's trap cell: interiors of rooms kept apart are disjoint. */
  lemma TrapSpotFresh(rooms: seq<Room>, rng: Oracle, k: nat)
    requires Roomy(rooms) && PairwiseApart(rooms) && 1 <= k < |rooms|
    ensures !TrapAt(rooms, rng, k, TrapSpot(rooms[k], k, rng))
  {
    var spot := TrapSpot(rooms[k], k, rng);
    forall j | 1 <= j < k ensures TrapSpot(rooms[j], j, rng) != spot {
      InteriorsDisjoint(rooms, j, k, TrapSpot(rooms[j], j, rng));
    }
  }

  /** The interiors of two different rooms of a pairwise-apart list share no cell. */
  lemma InteriorsDisjoint(rooms: seq<Room>, j: nat, k: nat, p: Pos)
    requires PairwiseApart(rooms) && j < k < |rooms|
    requires InInterior(rooms[j], p.x, p.y)
    ensures !InInterior(rooms[k], p.x, p.y)
  {
    if InInterior(rooms[k], p.x, p.y) {
      ApartRoomsAreDisjoint(rooms[j], rooms[k], p.x, p.y, p.x, p.y);
    }
  }

  /** `p` is on the corridor of link `i` or on an earlier one exactly when it is on one of the first `i + 1`. */
  lemma OnCorridorsNext(rooms: seq<Room>, rng: Oracle, i: nat, p: Pos)
    requires i + 1 < |rooms|
    ensures OnCorridors(rooms, rng, i + 1, p) <==>
      OnCorridors(rooms, rng, i, p) || InCorridor(Center(rooms[i]), Center(rooms[i + 1]), HorizontalFirst(rng, i), p)
  {
  }

  const RoomAttempts: nat := 100
  const PlacementAttempts: nat := 10

  /** How many corridors `_connect_rooms` carves for `n` rooms: one per consecutive pair. */
  function Links(n: nat): (r: nat)
    ensures n >= 1 ==> r + 1 == n
    ensures n == 0 ==> r == 0
  {
    if n == 0 then 0 else n - 1
  }

  /** The centre of a room that fits the map lies in the room and off the border. */
  lemma CenterInner(r: Room, width: int, height: int)
    requires Fits(r, width, height)
    ensures InRoom(r, Center(r).x, Center(r).y) && Inner(width, height, Center(r).x, Center(r).y)
  {
    CenterInside(r);
  }

  /** Every cell of a corridor between the centres of two fitting rooms is off the border. */
  lemma CorridorCellsInner(rooms: seq<Room>, rng: Oracle, n: nat, width: int, height: int, p: Pos)
    requires n < |rooms| || n == 0
    requires forall k :: 0 <= k < |rooms| ==> Fits(rooms[k], width, height)
    requires OnCorridors(rooms, rng, n, p)
    ensures Inner(width, height, p.x, p.y)
  {
    var i :| 0 <= i < n && InCorridor(Center(rooms[i]), Center(rooms[i + 1]), HorizontalFirst(rng, i), p);
    CenterInside(rooms[i]);
    CenterInside(rooms[i + 1]);
  }

  /** A corridor cell lies in the bounding box of the corridor's two ends. */
  lemma CorridorInBox(a: Pos, b: Pos, horizontalFirst: bool, p: Pos)
    requires InCorridor(a, b, horizontalFirst, p)
    ensures Min(a.x, b.x) <= p.x <= Max(a.x, b.x) && Min(a.y, b.y) <= p.y <= Max(a.y, b.y)
  {
  }

  /**
   * Once every cell on the corridors between consecutive room centres is
   * floor, each centre is reachable from the previous one.
   */
  lemma CorridorsConnect(grid: array2<Tile>, rooms: seq<Room>, rng: Oracle, width: int, height: int, i: nat)
    requires grid.Length0 == height && grid.Length1 == width
    requires forall k :: 0 <= k < |rooms| ==> Fits(rooms[k], width, height)
    requires i + 1 < |rooms|
    requires forall y, x :: 0 <= y < height && 0 <= x < width && OnCorridors(rooms, rng, Links(|rooms|), Pos(x, y)) ==> grid[y, x] == Floor
    ensures Reachable(grid, Center(rooms[i]), Center(rooms[i + 1]))
  {
    var a, b := Center(rooms[i]), Center(rooms[i + 1]);
    CenterInside(rooms[i]);
    CenterInside(rooms[i + 1]);
    forall p | InCorridor(a, b, HorizontalFirst(rng, i), p)
      ensures Open(grid, p)
    {
      CorridorInBox(a, b, HorizontalFirst(rng, i), p);
      assert OnCorridors(rooms, rng, Links(|rooms|), Pos(p.x, p.y));
    }
    CorridorConnects(grid, a, b, HorizontalFirst(rng, i));
  }

  /** A tile `_add_monsters_and_treasure` writes for a monster of `catalog`. */
  ghost predicate IsMonsterTile(t: Tile, catalog: seq<Monster>) {
    t.monster.Some? && Complete(t.monster.value) && t == MonsterTile(t.monster.value) && t.monster.value in catalog
  }

  /** Kept-or-completed composes: the catalog evolves the same way over several rooms. */
  lemma CatalogEvolvesTrans(a: seq<Monster>, b: seq<Monster>, c: seq<Monster>)
    requires CatalogEvolves(a, b) && CatalogEvolves(b, c)
    ensures CatalogEvolves(a, c)
  {
    forall i | 0 <= i < |a| ensures CompletesOrKeeps(a[i], c[i]) {
      if b[i] != a[i] {
        CompletedIdempotent(a[i]);
      }
    }
  }

  /**
   * The party after the first `i` members of `place_party`'s loop: the
   * leader as given (already on the spawn), members 1 to `i - 1` moved onto
   * the spawn, the rest untouched.
   */
  ghost predicate FollowersAt(party: seq<Character>, placed: seq<Character>, spawn: Pos, i: nat) {
    |placed| == |party| >= 1 && placed[0] == party[0] && 1 <= i <= |party| &&
    (forall j :: 1 <= j < i ==> placed[j] == WithPosition(party[j], spawn)) &&
    (forall j :: i <= j < |party| ==> placed[j] == party[j])
  }

  /** Every member before member `i` stands on the spawn, so member `i`'s target is the spawn. */
  lemma FollowerTarget(party: seq<Character>, placed: seq<Character>, spawn: Pos, i: nat)
    requires FollowersAt(party, placed, spawn, i) && i < |party|
    requires HasPosition(party[0]) && PositionOf(party[0]) == spawn
    ensures HasPosition(placed[i - 1]) && PositionOf(placed[i - 1]) == spawn
  {
  }

  /** Moving member `i` onto the spawn extends the placed prefix by one. */
  lemma FollowerMoves(party: seq<Character>, placed: seq<Character>, spawn: Pos, i: nat)
    requires FollowersAt(party, placed, spawn, i) && i < |party|
    ensures placed[i] == party[i]
    ensures FollowersAt(party, placed[i := WithPosition(placed[i], spawn)], spawn, i + 1)
  {
  }

  /** With the leader put on the spawn first, the whole party ends on the spawn. */
  lemma PartyOnSpawn(party: seq<Character>, placed: seq<Character>, spawn: Pos)
    requires |party| >= 1
    requires FollowersAt(party[0 := WithPosition(party[0], spawn)], placed, spawn, |party|)
    ensures |placed| == |party|
    ensures forall i :: 0 <= i < |party| ==> placed[i] == WithPosition(party[i], spawn)
  {
  }

  class DungeonGenerator {
    const width: int
    const height: int
    var rooms: seq<Room>
    var corridors: seq<Pos>
    var dungeon: array2<Tile>
    var monsters: seq<Monster>

    /** The grid has been generated: `height` rows of `width` tiles. */
    predicate Shaped()
      reads this
    {
      dungeon.Length0 == height && dungeon.Length1 == width
    }

    /** A generated grid whose rooms all fit the map and keep apart from one another. */
    ghost predicate Valid()
      reads this
    {
      Shaped() && (forall k :: 0 <= k < |rooms| ==> Fits(rooms[k], width, height)) && PairwiseApart(rooms)
    }

    /** Every cell of every room is plain floor. */
    ghost predicate RoomsFloored()
      reads this, dungeon
      requires Valid()
    {
      forall k, x, y :: 0 <= k < |rooms| && InRoom(rooms[k], x, y) ==> dungeon[y, x] == Floor
    }

    /** Every cell on the outermost rows and columns is a wall. */
    ghost predicate BorderIsWall()
      reads this, dungeon
      requires Shaped()
    {
      forall y, x :: 0 <= y < height && 0 <= x < width && !Inner(width, height, x, y) ==> dungeon[y, x] == Wall
    }

    /** No tile carries the door glyph `+` except a monster whose display character it is. */
    ghost predicate NoDoors()
      reads this, dungeon
      requires Shaped()
    {
      forall y, x :: 0 <= y < height && 0 <= x < width ==> !(dungeon[y, x].glyph == "+" && dungeon[y, x].monster.None?)
    }

    /** `__init__` with the monster catalog as an input; the grid starts empty. */
    constructor (width: int, height: int, catalog: seq<Monster>)
      ensures this.width == width && this.height == height
      ensures rooms == [] && corridors == [] && monsters == catalog
      ensures dungeon.Length0 == 0 && dungeon.Length1 == 0
    {
      this.width := width;
      this.height := height;
      rooms := [];
      corridors := [];
      dungeon := new Tile[0, 0];
      monsters := catalog;
    }

    /** `_carve_room`: exactly the in-bounds cells of the rectangle become floor. */
    method CarveRoom(room: Room)
      requires Shaped()
      modifies dungeon
      ensures forall y, x :: 0 <= y < height && 0 <= x < width ==>
        dungeon[y, x] == if InRoom(room, x, y) then Floor else old(dungeon[y, x])
    {
      for y := room.y to Max(room.y, room.y + room.height)
        invariant forall yy, xx :: 0 <= yy < height && 0 <= xx < width ==>
          dungeon[yy, xx] == if InRoom(room, xx, yy) && yy < y then Floor else old(dungeon[yy, xx])
      {
        for x := room.x to Max(room.x, room.x + room.width)
          invariant forall yy, xx :: 0 <= yy < height && 0 <= xx < width ==>
            dungeon[yy, xx] == if InRoom(room, xx, yy) && (yy < y || (yy == y && xx < x)) then Floor else old(dungeon[yy, xx])
        {
          if 0 <= y < height && 0 <= x < width {
            dungeon[y, x] := Floor;
          }
        }
      }
    }

    /** One horizontal leg of `_carve_corridor`: row `y` from `x1` to `x2`, either way round. */
    method CarveRow(y: int, x1: int, x2: int)
      requires Shaped() && 0 <= y < height && 0 <= x1 < width && 0 <= x2 < width
      modifies dungeon
      ensures forall yy, xx :: 0 <= yy < height && 0 <= xx < width ==>
        dungeon[yy, xx] == if OnSegment(Pos(x1, y), Pos(x2, y), Pos(xx, yy)) then Floor else old(dungeon[yy, xx])
    {
      for x := Min(x1, x2) to Max(x1, x2) + 1
        invariant forall yy, xx :: 0 <= yy < height && 0 <= xx < width ==>
          dungeon[yy, xx] == if yy == y && Min(x1, x2) <= xx < x then Floor else old(dungeon[yy, xx])
      {
        dungeon[y, x] := Floor;
      }
    }

    /** One vertical leg of `_carve_corridor`: column `x` from `y1` to `y2`, either way round. */
    method CarveColumn(x: int, y1: int, y2: int)
      requires Shaped() && 0 <= x < width && 0 <= y1 < height && 0 <= y2 < height
      modifies dungeon
      ensures forall yy, xx :: 0 <= yy < height && 0 <= xx < width ==>
        dungeon[yy, xx] == if OnSegment(Pos(x, y1), Pos(x, y2), Pos(xx, yy)) then Floor else old(dungeon[yy, xx])
    {
      for y := Min(y1, y2) to Max(y1, y2) + 1
        invariant forall yy, xx :: 0 <= yy < height && 0 <= xx < width ==>
          dungeon[yy, xx] == if xx == x && Min(y1, y2) <= yy < y then Floor else old(dungeon[yy, xx])
      {
        dungeon[y, x] := Floor;
      }
    }

    /**
     * `_carve_corridor`: exactly the cells of the L-shaped corridor become
     * floor, so afterwards `b` is reachable from `a` over floor.
     */
    method CarveCorridor(a: Pos, b: Pos, coin: nat)
      requires Shaped() && InGrid(dungeon, a) && InGrid(dungeon, b)
      modifies dungeon
      ensures forall y, x :: 0 <= y < height && 0 <= x < width ==>
        dungeon[y, x] == if InCorridor(a, b, Chance(coin, 50), Pos(x, y)) then Floor else old(dungeon[y, x])
      ensures Reachable(dungeon, a, b)
    {
      var horizontalFirst := Chance(coin, 50);
      var corner := Corner(a, b, horizontalFirst);
      assert Pos(a.x, a.y) == a && Pos(b.x, b.y) == b;
      if horizontalFirst {
        CarveRow(a.y, a.x, b.x);
        CarveColumn(b.x, a.y, b.y);
      } else {
        CarveColumn(a.x, a.y, b.y);
        CarveRow(b.y, a.x, b.x);
      }
      assert forall y, x :: 0 <= y < height && 0 <= x < width ==>
        dungeon[y, x] == if OnSegment(a, corner, Pos(x, y)) || OnSegment(corner, b, Pos(x, y)) then Floor else old(dungeon[y, x]);
      forall p | InCorridor(a, b, horizontalFirst, p) ensures Open(dungeon, p) {
        CorridorInBox(a, b, horizontalFirst, p);
      }
      CorridorConnects(dungeon, a, b, horizontalFirst);
    }

    /**
     * `is_valid_position`: in bounds and not a wall; the `walkable` flag
     * plays no part, so water is a valid position while walls never are.
     */
    predicate IsValidPosition(x: int, y: int)
      reads this, dungeon
      requires Shaped()
      ensures IsValidPosition(x, y) ==> InGrid(dungeon, Pos(x, y))
      ensures Open(dungeon, Pos(x, y)) ==> IsValidPosition(x, y)
      ensures InGrid(dungeon, Pos(x, y)) && dungeon[y, x] == Water ==> IsValidPosition(x, y)
      ensures InGrid(dungeon, Pos(x, y)) && dungeon[y, x] == Wall ==> !IsValidPosition(x, y)
    {
      0 <= x < width && 0 <= y < height && dungeon[y, x].glyph != "#"
    }

    /**
     * `_is_valid_door_position`: an in-bounds wall with exactly two
     * orthogonally adjacent floor cells.
     */
    method IsValidDoorPosition(x: int, y: int) returns (valid: bool)
      requires Shaped()
      ensures valid <==> InGrid(dungeon, Pos(x, y)) && dungeon[y, x].glyph == "#" && |Neighbors(dungeon, Pos(x, y))| == 2
    {
      if !(0 <= x < width && 0 <= y < height) {
        return false;
      }
      if dungeon[y, x].glyph != "#" {
        return false;
      }
      var floorCount := 0;
      var cands := Candidates(Pos(x, y));
      for i := 0 to |Directions|
        invariant floorCount == |OpenAmong(dungeon, cands[..i])|
      {
        var d := Directions[i];
        var nx, ny := x + d.x, y + d.y;
        assert Pos(nx, ny) == cands[i];
        assert cands[..i + 1][..i] == cands[..i];
        if 0 <= nx < width && 0 <= ny < height && dungeon[ny, nx].glyph == "." {
          floorCount := floorCount + 1;
        }
      }
      assert cands[..4] == cands;
      valid := floorCount == 2;
    }

    /**
     * `_add_fog_of_war`: every tile that is not a wall becomes hidden;
     * nothing else about any tile changes.
     */
    method AddFogOfWar()
      requires Shaped()
      modifies dungeon
      ensures forall y, x :: 0 <= y < height && 0 <= x < width ==> dungeon[y, x] == Fogged(old(dungeon[y, x]))
      ensures old(BorderIsWall()) ==> BorderIsWall()
      ensures old(NoDoors()) ==> NoDoors()
    {
      for y := 0 to height
        invariant forall yy, xx :: 0 <= yy < height && 0 <= xx < width ==>
          dungeon[yy, xx] == if yy < y then Fogged(old(dungeon[yy, xx])) else old(dungeon[yy, xx])
      {
        for x := 0 to width
          invariant forall yy, xx :: 0 <= yy < height && 0 <= xx < width ==>
            dungeon[yy, xx] == if yy < y || (yy == y && xx < x) then Fogged(old(dungeon[yy, xx])) else old(dungeon[yy, xx])
        {
          if dungeon[y, x].glyph != "#" {
            dungeon[y, x] := dungeon[y, x].(visible := false);
          }
        }
      }
    }

    /**
     * `reveal_area`: the in-bounds cells of the disc of `radius` around
     * `(cx, cy)` become visible; no tile is hidden and nothing else changes.
     */
    method RevealArea(cx: int, cy: int, radius: int)
      requires Shaped()
      modifies dungeon
      ensures forall y, x :: 0 <= y < height && 0 <= x < width ==>
        dungeon[y, x] == if InDisc(cx, cy, radius, x, y) then old(dungeon[y, x]).(visible := true) else old(dungeon[y, x])
    {
      for dy := -radius to Max(-radius, radius + 1)
        invariant forall yy, xx :: 0 <= yy < height && 0 <= xx < width ==>
          dungeon[yy, xx] == if InDisc(cx, cy, radius, xx, yy) && yy - cy < dy then old(dungeon[yy, xx]).(visible := true) else old(dungeon[yy, xx])
      {
        for dx := -radius to Max(-radius, radius + 1)
          invariant forall yy, xx :: 0 <= yy < height && 0 <= xx < width ==>
            dungeon[yy, xx] ==
              if InDisc(cx, cy, radius, xx, yy) && (yy - cy < dy || (yy - cy == dy && xx - cx < dx))
              then old(dungeon[yy, xx]).(visible := true) else old(dungeon[yy, xx])
        {
          var nx, ny := cx + dx, cy + dy;
          if 0 <= nx < width && 0 <= ny < height && dx * dx + dy * dy <= radius * radius {
            dungeon[ny, nx] := dungeon[ny, nx].(visible := true);
          }
        }
      }
    }

    /**
     * `_try_add_room`: up to 100 drawn candidates; the first that intersects
     * no placed room is appended and carved. Without one, nothing changes.
     */
    method TryAddRoom(slot: nat, rng: Oracle) returns (success: bool)
      requires Valid() && width >= 14 && height >= 10
      modifies this, dungeon
      ensures Valid() && dungeon == old(dungeon)
      ensures corridors == old(corridors) && monsters == old(monsters)
      ensures success <==> exists a :: 0 <= a < RoomAttempts && !IntersectsAny(Candidate(width, height, slot, a, rng), old(rooms))
      ensures success ==>
        exists a :: 0 <= a < RoomAttempts &&
          (forall b :: 0 <= b < a ==> IntersectsAny(Candidate(width, height, slot, b, rng), old(rooms))) &&
          !IntersectsAny(Candidate(width, height, slot, a, rng), old(rooms)) &&
          rooms == old(rooms) + [Candidate(width, height, slot, a, rng)]
      ensures success ==> forall y, x :: 0 <= y < height && 0 <= x < width ==>
        dungeon[y, x] == if InRoom(rooms[|rooms| - 1], x, y) then Floor else old(dungeon[y, x])
      ensures !success ==> rooms == old(rooms)
      ensures !success ==> forall y, x :: 0 <= y < height && 0 <= x < width ==> dungeon[y, x] == old(dungeon[y, x])
      ensures old(RoomsFloored()) ==> RoomsFloored()
      ensures old(BorderIsWall()) ==> BorderIsWall()
      ensures old(NoDoors()) ==> NoDoors()
    {
      for attempt := 0 to RoomAttempts
        invariant unchanged(this) && unchanged(dungeon)
        invariant forall b :: 0 <= b < attempt ==> IntersectsAny(Candidate(width, height, slot, b, rng), rooms)
      {
        var w := RandInt(5, 12, rng(RoomWidth(slot, attempt)));
        var h := RandInt(5, 8, rng(RoomHeight(slot, attempt)));
        var x := RandInt(1, width - w - 1, rng(RoomX(slot, attempt)));
        var y := RandInt(1, height - h - 1, rng(RoomY(slot, attempt)));
        var newRoom := Room(x, y, w, h);
        assert newRoom == Candidate(width, height, slot, attempt, rng);
        if !IntersectsAny(newRoom, rooms) {
          AppendKeepsApart(rooms, newRoom);
          rooms := rooms + [newRoom];
          CarveRoom(newRoom);
          return true;
        }
      }
      return false;
    }

    /**
     * `_connect_rooms`: a corridor between the centres of each pair of
     * consecutive rooms. Exactly the corridor cells become floor, so each
     * room's centre is then reachable from the previous one's over floor.
     */
    method ConnectRooms(rng: Oracle)
      requires Valid()
      modifies dungeon
      ensures forall y, x :: 0 <= y < height && 0 <= x < width ==>
        dungeon[y, x] == if OnCorridors(rooms, rng, Links(|rooms|), Pos(x, y)) then Floor else old(dungeon[y, x])
      ensures forall i :: 0 <= i < |rooms| - 1 ==> Reachable(dungeon, Center(rooms[i]), Center(rooms[i + 1]))
      ensures old(RoomsFloored()) ==> RoomsFloored()
      ensures old(BorderIsWall()) ==> BorderIsWall()
      ensures old(NoDoors()) ==> NoDoors()
    {
      for i := 0 to Links(|rooms|)
        invariant forall y, x :: 0 <= y < height && 0 <= x < width ==>
          dungeon[y, x] == if OnCorridors(rooms, rng, i, Pos(x, y)) then Floor else old(dungeon[y, x])
      {
        CenterInside(rooms[i]);
        CenterInside(rooms[i + 1]);
        CarveCorridor(Center(rooms[i]), Center(rooms[i + 1]), rng(CorridorCoin(i)));
        forall y, x | 0 <= y < height && 0 <= x < width
          ensures dungeon[y, x] == if OnCorridors(rooms, rng, i + 1, Pos(x, y)) then Floor else old(dungeon[y, x])
        {
          OnCorridorsNext(rooms, rng, i, Pos(x, y));
        }
      }
      forall i | 0 <= i < |rooms| - 1
        ensures Reachable(dungeon, Center(rooms[i]), Center(rooms[i + 1]))
      {
        CorridorsConnect(dungeon, rooms, rng, width, height, i);
      }
      forall y, x | 0 <= y < height && 0 <= x < width && OnCorridors(rooms, rng, Links(|rooms|), Pos(x, y))
        ensures Inner(width, height, x, y)
      {
        CorridorCellsInner(rooms, rng, Links(|rooms|), width, height, Pos(x, y));
      }
    }

    /**
     * The body of `_add_doors` for room `k`: a door can only replace a wall
     * inside the room, and over a room that is all floor nothing changes.
     */
    method DoorsInRoom(k: nat, rng: Oracle)
      requires Valid() && k < |rooms|
      modifies dungeon
      ensures forall y, x :: 0 <= y < height && 0 <= x < width ==>
        dungeon[y, x] == old(dungeon[y, x]) ||
        (dungeon[y, x] == Door && old(dungeon[y, x]).glyph == "#" && InRoom(rooms[k], x, y))
      ensures old(RoomsFloored()) ==>
        forall y, x :: 0 <= y < height && 0 <= x < width ==> dungeon[y, x] == old(dungeon[y, x])
    {
      var room := rooms[k];
      for x := room.x to room.x + room.width
        invariant forall yy, xx :: 0 <= yy < height && 0 <= xx < width ==>
          dungeon[yy, xx] == old(dungeon[yy, xx]) ||
          (dungeon[yy, xx] == Door && old(dungeon[yy, xx]).glyph == "#" && InRoom(room, xx, yy))
        invariant old(RoomsFloored()) ==>
          forall yy, xx :: 0 <= yy < height && 0 <= xx < width ==> dungeon[yy, xx] == old(dungeon[yy, xx])
      {
        for y := room.y to room.y + room.height
          invariant forall yy, xx :: 0 <= yy < height && 0 <= xx < width ==>
            dungeon[yy, xx] == old(dungeon[yy, xx]) ||
            (dungeon[yy, xx] == Door && old(dungeon[yy, xx]).glyph == "#" && InRoom(room, xx, yy))
          invariant old(RoomsFloored()) ==>
            forall yy, xx :: 0 <= yy < height && 0 <= xx < width ==> dungeon[yy, xx] == old(dungeon[yy, xx])
        {
          var valid := IsValidDoorPosition(x, y);
          if valid && Chance(rng(DoorCoin(k, x, y)), 30) {
            dungeon[y, x] := Door;
          }
        }
      }
    }

    /**
     * `_add_doors`: a door can only replace a wall inside some room. Rooms
     * are carved to floor before doors are added, and over rooms that are
     * all floor `_add_doors` changes no tile at all.
     */
    method AddDoors(rng: Oracle)
      requires Valid()
      modifies dungeon
      ensures forall y, x :: 0 <= y < height && 0 <= x < width ==>
        dungeon[y, x] == old(dungeon[y, x]) ||
        (dungeon[y, x] == Door && old(dungeon[y, x]).glyph == "#" && InSomeRoom(rooms, |rooms|, x, y))
      ensures old(RoomsFloored()) ==>
        forall y, x :: 0 <= y < height && 0 <= x < width ==> dungeon[y, x] == old(dungeon[y, x])
    {
      for k := 0 to |rooms|
        invariant forall y, x :: 0 <= y < height && 0 <= x < width ==>
          dungeon[y, x] == old(dungeon[y, x]) ||
          (dungeon[y, x] == Door && old(dungeon[y, x]).glyph == "#" && InSomeRoom(rooms, k, x, y))
        invariant old(RoomsFloored()) ==> RoomsFloored()
        invariant old(RoomsFloored()) ==>
          forall y, x :: 0 <= y < height && 0 <= x < width ==> dungeon[y, x] == old(dungeon[y, x])
      {
        DoorsInRoom(k, rng);
      }
    }

    /**
     * `_add_stairs`: stairs up at the first room's centre, then stairs down
     * at the last room's centre. With a single room the down stairs replace
     * the up stairs; with two or more both are present.
     */
    method AddStairs()
      requires Valid()
      modifies dungeon
      ensures rooms == [] ==> forall y, x :: 0 <= y < height && 0 <= x < width ==> dungeon[y, x] == old(dungeon[y, x])
      ensures rooms != [] ==> forall y, x :: 0 <= y < height && 0 <= x < width ==>
        dungeon[y, x] ==
          if Pos(x, y) == Center(rooms[|rooms| - 1]) then StairsDown
          else if Pos(x, y) == Center(rooms[0]) then StairsUp
          else old(dungeon[y, x])
      ensures |rooms| >= 2 ==> dungeon[Center(rooms[0]).y, Center(rooms[0]).x] == StairsUp
      ensures old(BorderIsWall()) ==> BorderIsWall()
      ensures old(NoDoors()) ==> NoDoors()
    {
      if rooms != [] {
        var first, last := rooms[0], rooms[|rooms| - 1];
        var up, down := Center(first), Center(last);
        CenterInner(first, width, height);
        CenterInner(last, width, height);
        if |rooms| >= 2 {
          ApartRoomsAreDisjoint(first, last, up.x, up.y, down.x, down.y);
        }
        dungeon[up.y, up.x] := StairsUp;
        dungeon[down.y, down.x] := StairsDown;
      }
    }

    /**
     * The monster half of `_add_monsters_and_treasure` for middle room `k`:
     * on a successful coin, up to 10 drawn interior cells; the first that is
     * floor gets a monster drawn from the catalog, unless the drawn entry
     * lacks a display character and has an empty name (the error is caught
     * and the next cell is tried). The entry is completed in the catalog.
     */
    method PlaceMonster(k: nat, rng: Oracle)
      requires Valid() && 1 <= k < |rooms| - 1 && monsters != []
      modifies this, dungeon
      ensures rooms == old(rooms) && corridors == old(corridors) && dungeon == old(dungeon)
      ensures CatalogEvolves(old(monsters), monsters)
      ensures forall m :: m in old(monsters) && Complete(m) ==> m in monsters
      ensures forall y, x :: 0 <= y < height && 0 <= x < width ==>
        dungeon[y, x] == old(dungeon[y, x]) ||
        (old(dungeon[y, x]).glyph == "." && InInterior(rooms[k], x, y) && IsMonsterTile(dungeon[y, x], monsters))
      ensures !Chance(rng(MonsterCoin(k)), 50) ==>
        monsters == old(monsters) && forall y, x :: 0 <= y < height && 0 <= x < width ==> dungeon[y, x] == old(dungeon[y, x])
    {
      var room := rooms[k];
      if Chance(rng(MonsterCoin(k)), 50) {
        for attempt := 0 to PlacementAttempts
          invariant unchanged(this) && unchanged(dungeon)
        {
          var x := RandInt(room.x + 1, room.x + room.width - 2, rng(MonsterX(k, attempt)));
          var y := RandInt(room.y + 1, room.y + room.height - 2, rng(MonsterY(k, attempt)));
          if dungeon[y, x].glyph == "." {
            var pick := RandInt(0, |monsters| - 1, rng(MonsterPick(k, attempt)));
            var monster := monsters[pick];
            if monster.displayChar.None? && monster.name == [] {
              continue;
            }
            ghost var before := monster;
            if monster.displayChar.None? {
              monster := monster.(displayChar := Some([UpperChar(monster.name[0])]));
            }
            if monster.color.None? {
              monster := monster.(color := Some("#ff0000"));
            }
            assert monster == Completed(before);
            forall m | m in monsters && Complete(m) ensures m in monsters[pick := monster] {
              CompletionKeepsComplete(monsters, pick, m);
            }
            monsters := monsters[pick := monster];
            dungeon[y, x] := MonsterTile(monster);
            break;
          }
        }
      }
    }

    /**
     * The treasure half of `_add_monsters_and_treasure` for middle room `k`:
     * on a successful coin, up to 10 drawn interior cells; the first that is
     * floor becomes treasure.
     */
    method PlaceTreasure(k: nat, rng: Oracle)
      requires Valid() && 1 <= k < |rooms| - 1
      modifies dungeon
      ensures forall y, x :: 0 <= y < height && 0 <= x < width ==>
        dungeon[y, x] == old(dungeon[y, x]) ||
        (old(dungeon[y, x]).glyph == "." && InInterior(rooms[k], x, y) && dungeon[y, x] == Treasure)
      ensures !Chance(rng(TreasureCoin(k)), 30) ==>
        forall y, x :: 0 <= y < height && 0 <= x < width ==> dungeon[y, x] == old(dungeon[y, x])
    {
      var room := rooms[k];
      if Chance(rng(TreasureCoin(k)), 30) {
        for attempt := 0 to PlacementAttempts
          invariant unchanged(dungeon)
        {
          var x := RandInt(room.x + 1, room.x + room.width - 2, rng(TreasureX(k, attempt)));
          var y := RandInt(room.y + 1, room.y + room.height - 2, rng(TreasureY(k, attempt)));
          if dungeon[y, x].glyph == "." {
            dungeon[y, x] := Treasure;
            break;
          }
        }
      }
    }

    /**
     * `_add_monsters_and_treasure`: with an empty catalog nothing happens;
     * otherwise only the rooms strictly between the first and the last get
     * features, each onto a cell that was floor.
     */
    method AddMonstersAndTreasure(rng: Oracle)
      requires Valid()
      modifies this, dungeon
      ensures rooms == old(rooms) && corridors == old(corridors) && dungeon == old(dungeon)
      ensures CatalogEvolves(old(monsters), monsters)
      ensures forall y, x :: 0 <= y < height && 0 <= x < width ==>
        dungeon[y, x] == old(dungeon[y, x]) ||
        (old(dungeon[y, x]).glyph == "." && InMiddleRoom(rooms, x, y) &&
         (dungeon[y, x] == Treasure || IsMonsterTile(dungeon[y, x], monsters)))
      ensures old(monsters) == [] ==>
        monsters == [] && forall y, x :: 0 <= y < height && 0 <= x < width ==> dungeon[y, x] == old(dungeon[y, x])
      ensures old(BorderIsWall()) ==> BorderIsWall()
      ensures old(NoDoors()) ==> NoDoors()
    {
      if monsters == [] {
        return;
      }
      for k := 1 to Max(1, |rooms| - 1)
        invariant rooms == old(rooms) && corridors == old(corridors) && dungeon == old(dungeon)
        invariant CatalogEvolves(old(monsters), monsters)
        invariant forall y, x :: 0 <= y < height && 0 <= x < width ==>
          dungeon[y, x] == old(dungeon[y, x]) ||
          (old(dungeon[y, x]).glyph == "." && InMiddleRoom(rooms, x, y) &&
           (dungeon[y, x] == Treasure || IsMonsterTile(dungeon[y, x], monsters)))
      {
        ghost var catalog := monsters;
        PlaceMonster(k, rng);
        CatalogEvolvesTrans(old(monsters), catalog, monsters);
        PlaceTreasure(k, rng);
      }
      forall y, x | 0 <= y < height && 0 <= x < width && InMiddleRoom(rooms, x, y)
        ensures Inner(width, height, x, y)
      {
        var k :| 1 <= k < |rooms| - 1 && InInterior(rooms[k], x, y);
      }
    }

    /**
     * `_add_water_features`: each room whose coin succeeds gets water on one
     * drawn interior cell, whatever that cell held before.
     */
    method AddWaterFeatures(rng: Oracle)
      requires Valid()
      modifies dungeon
      ensures forall y, x :: 0 <= y < height && 0 <= x < width ==>
        dungeon[y, x] == if WaterAt(rooms, rng, |rooms|, Pos(x, y)) then Water else old(dungeon[y, x])
      ensures old(BorderIsWall()) ==> BorderIsWall()
      ensures old(NoDoors()) ==> NoDoors()
    {
      for k := 0 to |rooms|
        invariant forall y, x :: 0 <= y < height && 0 <= x < width ==>
          dungeon[y, x] == if WaterAt(rooms, rng, k, Pos(x, y)) then Water else old(dungeon[y, x])
      {
        var room := rooms[k];
        if Chance(rng(WaterCoin(k)), 20) {
          var waterX := RandInt(room.x + 1, room.x + room.width - 2, rng(WaterX(k)));
          var waterY := RandInt(room.y + 1, room.y + room.height - 2, rng(WaterY(k)));
          assert Pos(waterX, waterY) == WaterSpot(room, k, rng);
          dungeon[waterY, waterX] := Water;
        }
        forall y, x | 0 <= y < height && 0 <= x < width
          ensures dungeon[y, x] == if WaterAt(rooms, rng, k + 1, Pos(x, y)) then Water else old(dungeon[y, x])
        {
          WaterAtNext(rooms, rng, k, Pos(x, y));
        }
      }
      forall y, x | 0 <= y < height && 0 <= x < width && WaterAt(rooms, rng, |rooms|, Pos(x, y))
        ensures Inner(width, height, x, y)
      {
        var k :| 0 <= k < |rooms| && Chance(rng(WaterCoin(k)), 20) && Pos(x, y) == WaterSpot(rooms[k], k, rng);
      }
    }

    /**
     * `_add_traps`: each middle room whose coin succeeds gets a trap on one
     * drawn interior cell, only if that cell was floor.
     */
    method AddTraps(rng: Oracle)
      requires Valid()
      modifies dungeon
      ensures forall y, x :: 0 <= y < height && 0 <= x < width ==>
        dungeon[y, x] ==
          if TrapAt(rooms, rng, Links(|rooms|), Pos(x, y)) && old(dungeon[y, x]).glyph == "." then Trap
          else old(dungeon[y, x])
      ensures old(BorderIsWall()) ==> BorderIsWall()
      ensures old(NoDoors()) ==> NoDoors()
    {
      for k := 1 to Max(1, Links(|rooms|))
        invariant forall y, x :: 0 <= y < height && 0 <= x < width ==>
          dungeon[y, x] ==
            if TrapAt(rooms, rng, k, Pos(x, y)) && old(dungeon[y, x]).glyph == "." then Trap
            else old(dungeon[y, x])
      {
        var room := rooms[k];
        if Chance(rng(TrapCoin(k)), 30) {
          var trapX := RandInt(room.x + 1, room.x + room.width - 2, rng(TrapX(k)));
          var trapY := RandInt(room.y + 1, room.y + room.height - 2, rng(TrapY(k)));
          var spot := Pos(trapX, trapY);
          assert spot == TrapSpot(room, k, rng);
          TrapSpotFresh(rooms, rng, k);
          if dungeon[trapY, trapX].glyph == "." {
            dungeon[trapY, trapX] := Trap;
          }
        }
        forall y, x | 0 <= y < height && 0 <= x < width
          ensures dungeon[y, x] ==
            if TrapAt(rooms, rng, k + 1, Pos(x, y)) && old(dungeon[y, x]).glyph == "." then Trap
            else old(dungeon[y, x])
        {
          TrapAtNext(rooms, rng, k, Pos(x, y));
        }
      }
      forall y, x | 0 <= y < height && 0 <= x < width && TrapAt(rooms, rng, Links(|rooms|), Pos(x, y))
        ensures Inner(width, height, x, y)
      {
        var k :| 1 <= k < Links(|rooms|) && Chance(rng(TrapCoin(k)), 30) && Pos(x, y) == TrapSpot(rooms[k], k, rng);
      }
    }

    /**
     * `generate`: a fresh `height` × `width` grid of walls, then rooms,
     * corridors, doors, stairs, monsters and treasure, water, traps and fog.
     * The rooms fit the map and keep apart, there are at most `maxRooms` of
     * them, the outermost rows and columns stay walls, and no door is ever
     * placed.
     */
    method Generate(minRooms: int, maxRooms: int, rng: Oracle)
      requires minRooms <= maxRooms && width >= 14 && height >= 10
      modifies this
      ensures fresh(dungeon) && Valid()
      ensures |rooms| <= Max(0, maxRooms) && corridors == []
      ensures BorderIsWall() && NoDoors()
      ensures CatalogEvolves(old(monsters), monsters)
      ensures forall r :: r in rooms ==>
        exists s, a :: 0 <= s < Max(0, maxRooms) && 0 <= a < RoomAttempts && r == Candidate(width, height, s, a, rng)
      ensures forall y, x :: 0 <= y < height && 0 <= x < width && dungeon[y, x].glyph != "#" ==> !dungeon[y, x].visible
    {
      dungeon := new Tile[height, width]((_, _) => Wall);
      rooms := [];
      corridors := [];
      var numRooms := RandInt(minRooms, maxRooms, rng(RoomCount));
      for slot := 0 to Max(0, numRooms)
        invariant fresh(dungeon) && Valid() && |rooms| <= slot
        invariant corridors == [] && monsters == old(monsters)
        invariant RoomsFloored() && BorderIsWall() && NoDoors()
        invariant forall r :: r in rooms ==>
          exists s, a :: 0 <= s < slot && 0 <= a < RoomAttempts && r == Candidate(width, height, s, a, rng)
      {
        var added := TryAddRoom(slot, rng);
      }
      ConnectRooms(rng);
      AddDoors(rng);
      AddStairs();
      AddMonstersAndTreasure(rng);
      AddWaterFeatures(rng);
      AddTraps(rng);
      AddFogOfWar();
    }

    /**
     * The spawn search of `place_party`: the first column from 1 on, before
     * `width / 4`, whose cell in row `height / 2` is floor; `width / 4` or
     * more when there is none.
     */
    method SpawnColumn() returns (startX: int)
      requires Shaped() && (width / 4 > 1 ==> height > 0)
      ensures 1 <= startX
      ensures forall x :: 1 <= x < startX && x < width / 4 ==> dungeon[height / 2, x].glyph != "."
      ensures startX < width / 4 ==> dungeon[height / 2, startX].glyph == "."
    {
      startX := 1;
      var startY := height / 2;
      while startX < width / 4
        invariant 1 <= startX
        invariant forall x :: 1 <= x < startX && x < width / 4 ==> dungeon[startY, x].glyph != "."
        decreases width / 4 - startX
      {
        if dungeon[startY, startX].glyph == "." {
          return;
        }
        startX := startX + 1;
      }
    }

    /**
     * The follower loop of `place_party`: each member after the leader
     * moves to the end of its path from the spawn to the member before it.
     * With the leader on the spawn, every path is the spawn alone, so every
     * member lands on the spawn and the spawn shows the last one's colour.
     */
    method PlaceFollowers(party: seq<Character>, spawn: Pos) returns (placed: seq<Character>)
      requires Shaped() && InGrid(dungeon, spawn) && |party| >= 1
      requires forall i :: 0 <= i < |party| ==> ClassKey in party[i]
      requires HasPosition(party[0]) && PositionOf(party[0]) == spawn
      modifies dungeon
      ensures FollowersAt(party, placed, spawn, |party|)
      ensures forall y, x :: 0 <= y < height && 0 <= x < width ==>
        dungeon[y, x] ==
          if Pos(x, y) == spawn && |party| > 1 then PartyTile(ClassColor(party[|party| - 1][ClassKey]))
          else old(dungeon[y, x])
    {
      placed := party;
      for i := 1 to |party|
        invariant FollowersAt(party, placed, spawn, i)
        invariant forall y, x :: 0 <= y < height && 0 <= x < width ==>
          dungeon[y, x] ==
            if Pos(x, y) == spawn && i > 1 then PartyTile(ClassColor(party[i - 1][ClassKey]))
            else old(dungeon[y, x])
      {
        var target := PositionOf(placed[i - 1]);
        FollowerTarget(party, placed, spawn, i);
        var path := FindPath(spawn, target, dungeon, width, height);
        if path != [] {
          var p := path[|path| - 1];
          assert p == spawn;
          var member := placed[i];
          FollowerMoves(party, placed, spawn, i);
          placed := placed[i := WithPosition(member, p)];
          dungeon[p.y, p.x] := PartyTile(ClassColor(member[ClassKey]));
        }
      }
    }

    /**
     * `place_party`: the spawn is the first floor cell of row `height / 2`
     * among columns 1 to `width / 4 - 1`. Without a party or such a cell it
     * fails and changes nothing. Otherwise every member ends on the spawn
     * (each follower's path to the member before it is just the spawn), and
     * the spawn shows the last member's class colour.
     */
    method PlaceParty(party: seq<Character>) returns (ok: bool, placed: seq<Character>)
      requires Shaped() && (width / 4 > 1 ==> height > 0)
      requires forall i :: 0 <= i < |party| ==> ClassKey in party[i]
      modifies dungeon
      ensures |placed| == |party|
      ensures ok <==> party != [] && exists x :: 1 <= x < width / 4 && old(dungeon[height / 2, x]).glyph == "."
      ensures !ok ==> placed == party
      ensures !ok ==> forall y, x :: 0 <= y < height && 0 <= x < width ==> dungeon[y, x] == old(dungeon[y, x])
      ensures ok ==> party != [] && HasPosition(placed[0])
      ensures ok ==>
        var s := PositionOf(placed[0]);
        s.y == height / 2 && 1 <= s.x < width / 4 && old(dungeon[s.y, s.x]).glyph == "." &&
        forall x :: 1 <= x < s.x ==> old(dungeon[s.y, x]).glyph != "."
      ensures ok ==> forall i :: 0 <= i < |party| ==> placed[i] == WithPosition(party[i], PositionOf(placed[0]))
      ensures ok ==> forall y, x :: 0 <= y < height && 0 <= x < width ==>
        dungeon[y, x] ==
          if Pos(x, y) == PositionOf(placed[0]) then PartyTile(ClassColor(party[|party| - 1][ClassKey]))
          else old(dungeon[y, x])
    {
      placed := party;
      if party == [] {
        return false, party;
      }
      var startX := SpawnColumn();
      var startY := height / 2;
      if startX >= width / 4 {
        return false, party;
      }
      placed := PlaceAt(party, Pos(startX, startY));
      return true, placed;
    }

    /**
     * The placing half of `place_party` once the spawn is chosen: the
     * leader goes on the spawn and takes its tile, then the followers
     * follow; every member ends on the spawn and the tile shows the last
     * member's colour.
     */
    method PlaceAt(party: seq<Character>, spawn: Pos) returns (placed: seq<Character>)
      requires Shaped() && InGrid(dungeon, spawn) && |party| >= 1
      requires forall i :: 0 <= i < |party| ==> ClassKey in party[i]
      modifies dungeon
      ensures |placed| == |party|
      ensures forall i :: 0 <= i < |party| ==> placed[i] == WithPosition(party[i], spawn)
      ensures forall y, x :: 0 <= y < height && 0 <= x < width ==>
        dungeon[y, x] ==
          if Pos(x, y) == spawn then PartyTile(ClassColor(party[|party| - 1][ClassKey]))
          else old(dungeon[y, x])
    {
      placed := party[0 := WithPosition(party[0], spawn)];
      dungeon[spawn.y, spawn.x] := PartyTile(ClassColor(placed[0][ClassKey]));
      placed := PlaceFollowers(placed, spawn);
      PartyOnSpawn(party, placed, spawn);
    }
  }
}
