/**
 * The move request (backend/app.py:114-209): the leader steps one cell in
 * the requested direction if the target is not a wall; each follower then
 * takes the first step of an A* path towards the member ahead of it; the
 * area around the leader is revealed, and the leader's tile decides the
 * event message.
 */
module Movement {
  import opened Values
  import opened Tiles
  import opened Pathfinding
  import opened Dungeon
  import opened Game

  /** The four directions the request understands. */
  predicate IsDirection(direction: string) {
    direction == "north" || direction == "south" || direction == "east" || direction == "west"
  }

  /** The leader's target: north is up (y - 1), east is right (x + 1); any other word stays put. */
  function Step(p: Pos, direction: string): (q: Pos)
    ensures direction == "north" ==> q == Pos(p.x, p.y - 1)
    ensures direction == "south" ==> q == Pos(p.x, p.y + 1)
    ensures direction == "east" ==> q == Pos(p.x + 1, p.y)
    ensures direction == "west" ==> q == Pos(p.x - 1, p.y)
    ensures !IsDirection(direction) ==> q == p
  {
    if direction == "north" then Pos(p.x, p.y - 1)
    else if direction == "south" then Pos(p.x, p.y + 1)
    else if direction == "east" then Pos(p.x + 1, p.y)
    else if direction == "west" then Pos(p.x - 1, p.y)
    else p
  }

  /** A recognised direction moves exactly one orthogonal cell; nothing else moves at all. */
  lemma StepIsAdjacent(p: Pos, direction: string)
    ensures IsDirection(direction) <==> Adjacent(p, Step(p, direction))
    ensures !IsDirection(direction) <==> Step(p, direction) == p
  {
  }

  /**
   * The message for the tile the leader lands on: a monster takes
   * precedence over the glyph; floor, walls and the party glyph say nothing.
   */
  function EventMessage(tile: Tile): (message: Option<string>)
    ensures tile.monster.Some? ==> message == Some("You encounter a " + tile.monster.value.name + "!")
    ensures message.None? <==> tile.monster.None? && tile.glyph !in {"$", "<", ">", "+", "~", "^", "i"}
  {
    if tile.monster.Some? then Some("You encounter a " + tile.monster.value.name + "!")
    else if tile.glyph == "$" then Some("You found treasure!")
    else if tile.glyph == "<" then Some("You found stairs leading up!")
    else if tile.glyph == ">" then Some("You found stairs leading down!")
    else if tile.glyph == "+" then Some("You found a door!")
    else if tile.glyph == "~" then Some("You found water!")
    else if tile.glyph == "^" then Some("You found a trap!")
    else if tile.glyph == "i" then Some("You found an item!")
    else None
  }

  /**
   * What happens to one follower standing on `member`'s position with the
   * member ahead of it on `target`: when the target is another cell the
   * follower can walk to, it moves onto an adjacent open cell from which
   * the target is still reachable; otherwise its record is left as it was.
   */
  ghost predicate FollowerStep(grid: array2<Tile>, member: Character, target: Pos, after: Character)
    reads grid
    requires HasPosition(member)
  {
    var from := PositionOf(member);
    if from != target && Reachable(grid, from, target) then
      HasPosition(after) && after == WithPosition(member, PositionOf(after)) &&
      Adjacent(from, PositionOf(after)) && Open(grid, PositionOf(after)) &&
      Reachable(grid, PositionOf(after), target)
    else
      after == member
  }

  /** The first `i` members after the move: the leader on `leaderTo`, each follower stepped after the one before. */
  ghost predicate Advanced(grid: array2<Tile>, party: seq<Character>, moved: seq<Character>, leaderTo: Pos, i: nat)
    reads grid
  {
    1 <= i <= |party| && |moved| == i &&
    (forall j :: 0 <= j < |party| ==> HasPosition(party[j])) &&
    (forall j :: 0 <= j < i ==> HasPosition(moved[j])) &&
    moved[0] == WithPosition(party[0], leaderTo) &&
    forall j :: 1 <= j < i ==> FollowerStep(grid, party[j], PositionOf(moved[j - 1]), moved[j])
  }

  /** The tail of a walk is a walk, so the target is reachable from the walk's second cell. */
  lemma WalkTail(grid: array2<Tile>, w: seq<Pos>)
    requires IsWalk(grid, w) && |w| >= 2
    ensures Adjacent(w[0], w[1]) && Open(grid, w[1])
    ensures Reachable(grid, w[1], w[|w| - 1])
  {
    var tail := w[1..];
    assert forall j :: 0 < j < |tail| ==> tail[j - 1] == w[j] && tail[j] == w[j + 1];
    assert IsWalk(grid, tail) && tail[0] == w[1] && tail[|tail| - 1] == w[|w| - 1];
  }

  /**
   * The loop over the party in `move_party`: the leader takes `leaderTo`;
   * follower `i` asks A* for a path from its cell to the cell member `i - 1`
   * now occupies and takes the path's second cell, or stays when the path
   * is empty or a single cell.
   */
  method AdvanceParty(party: seq<Character>, leaderTo: Pos, grid: array2<Tile>, width: int, height: int)
    returns (moved: seq<Character>)
    requires width == grid.Length1 && height == grid.Length0
    requires party != [] && forall j :: 0 <= j < |party| ==> HasPosition(party[j])
    ensures Advanced(grid, party, moved, leaderTo, |party|)
  {
    moved := [WithPosition(party[0], leaderTo)];
    for i := 1 to |party|
      invariant Advanced(grid, party, moved, leaderTo, i)
    {
      var from := PositionOf(party[i]);
      var target := PositionOf(moved[i - 1]);
      var path := FindPath(from, target, grid, width, height);
      var next := party[i];
      if |path| > 1 {
        WalkTail(grid, path);
        next := WithPosition(party[i], path[1]);
      }
      moved := moved + [next];
    }
  }

  /** The reply: a rejected request, a blocked move, or the new state with an optional event message. */
  datatype MoveResult =
    | BadRequest(error: string)
    | Blocked(message: string)
    | Moved(gameState: Snapshot, event: Option<string>)

  /**
   * `move_party`. A missing or empty direction and an empty party are
   * rejected; a target off the map or on a wall blocks the move and
   * changes nothing; otherwise the party advances, the area of radius 5
   * around the leader is revealed, and the reply carries the new state and
   * the leader's tile event.
   */
  method MoveParty(state: GameState, gen: DungeonGenerator, direction: Option<string>) returns (result: MoveResult, ghost moved: seq<Character>)
    requires state.dungeon == gen.dungeon && gen.Shaped()
    requires forall j :: 0 <= j < |state.party| ==> HasPosition(state.party[j])
    modifies state, gen.dungeon
    ensures state.dungeon == old(state.dungeon) && state.currentLevel == old(state.currentLevel)
    ensures state.inCombat == old(state.inCombat) && state.combat == old(state.combat)
    ensures state.messages == old(state.messages)
    ensures result.BadRequest? <==> direction.None? || direction == Some("") || old(state.party) == []
    ensures direction.None? || direction == Some("") ==> result == BadRequest("Missing direction")
    ensures result.BadRequest? && direction.Some? && direction.value != "" ==> result == BadRequest("No party members")
    ensures result.Blocked? ==> result.message == "Cannot move there"
    ensures result.Blocked? <==>
      !result.BadRequest? &&
      var to := Step(PositionOf(old(state.party[0])), direction.value);
      !old(gen.IsValidPosition(to.x, to.y))
    ensures !result.Moved? ==> state.party == old(state.party) && unchanged(gen.dungeon)
    ensures result.Moved? ==>
      var to := Step(PositionOf(old(state.party[0])), direction.value);
      InGrid(gen.dungeon, to) && old(gen.dungeon[to.y, to.x]).glyph != "#" &&
      state.party == moved && old(Advanced(gen.dungeon, state.party, moved, to, |state.party|)) &&
      (forall y, x :: 0 <= y < gen.height && 0 <= x < gen.width ==>
        gen.dungeon[y, x] == if InDisc(to.x, to.y, 5, x, y) then old(gen.dungeon[y, x]).(visible := true) else old(gen.dungeon[y, x])) &&
      result.event == EventMessage(gen.dungeon[to.y, to.x])
    ensures result.Moved? ==>
      result.gameState.party == state.party && result.gameState.messages == state.messages &&
      |result.gameState.dungeon| == gen.height &&
      (forall y :: 0 <= y < gen.height ==> |result.gameState.dungeon[y]| == gen.width) &&
      forall y, x :: 0 <= y < gen.height && 0 <= x < gen.width ==> result.gameState.dungeon[y][x] == gen.dungeon[y, x]
  {
    moved := state.party;
    if direction.None? || direction.value == "" {
      return BadRequest("Missing direction"), moved;
    }
    if state.party == [] {
      return BadRequest("No party members"), moved;
    }
    var to := Step(PositionOf(state.party[0]), direction.value);
    if !gen.IsValidPosition(to.x, to.y) {
      return Blocked("Cannot move there"), moved;
    }
    var advanced := AdvanceParty(state.party, to, state.dungeon, gen.width, gen.height);
    moved := advanced;
    state.party := advanced;
    gen.RevealArea(to.x, to.y, 5);
    var snapshot := state.ToDict();
    result := Moved(snapshot, EventMessage(gen.dungeon[to.y, to.x]));
  }
}
