# Dungeon crawler backend — a Dafny model

This project models the core of a browser-based AD&D-style dungeon crawler:

- **Dungeon generation** (`backend/dungeon_generator.py`). This is a generator object that owns a grid of tiles. It tries to add rooms that do not overlap, joins consecutive rooms with L-shaped corridors, and punches doors into walls between two floors. It puts stairs in the first and last rooms and monsters and treasure in the middle rooms. Water and traps are added next, then fog of war covers every non-wall tile. It also places the party on the map and reveals the area around a point.
- **A\* pathfinding** (`backend/pathfinding.py`). This finds a path over floor tiles with the Manhattan distance as the heuristic.
- **The move request** (`backend/app.py`, `move_party`). The leader steps one cell. Every follower takes the first step of an A\* path towards the member ahead of it. The area around the leader is revealed, and the tile the leader lands on decides the event message.
- **The session object** (`backend/game_state.py`). It holds the party of at most four members, a message log of at most 100 lines, and the snapshot that `to_dict` writes and `from_dict` reads back.
- **The rule arithmetic** (`backend/adnd_rules.py`). This covers ability scores, racial modifiers, class requirements, hit points, THAC0, saving throws, damage, ability modifiers, experience thresholds and starting gold.

## How the model is built

- Modules:
  - `Values`: positions, JSON-like values and character records.
  - `Tiles`: the tile catalogue and its grid predicates.
  - `Draws`: random draws.
  - `Rooms` and `Corridors`: room and corridor geometry.
  - `Pathfinding`: A\*.
  - `Dungeon`: the generator class.
  - `Game`: the session class.
  - `Movement`: the move request.
  - `Rules`: the rule arithmetic.
- The generator and the session are classes. Their grid is an `array2<Tile>` indexed `[y, x]`, as the source indexes `dungeon[y][x]`. Their methods carry `modifies` clauses and state the new grid cell by cell.
- Randomness becomes a parameter. The generator's methods take an *oracle*, a function from named draw sites (room `slot`, attempt `a`, coin `k`, …) to natural numbers. `randint(lo, hi)` becomes `RandInt(lo, hi, d)`, which lands in `[lo, hi]` and can produce every value there. `random.random() < p` becomes `Chance(d, 100·p)`. The contracts therefore speak about every possible run at once.
- The rule functions that roll dice take the rolls as a sequence of die results.
- Python's floor division `//` is Dafny's `/` wherever the divisor is positive, which holds everywhere it is used here.

## Model

| member | source | states |
|---|---|---|
| Values.WithPosition | backend/app.py:153-154 | after setting a member's position it reads back as that cell; every other key of the record keeps its value |
| Rooms.Center | backend/dungeon_generator.py:15-16 | the centre is half the width and half the height from the corner, rounded down |
| Rooms.Intersects | backend/dungeon_generator.py:18-22 | with padding 1, two rooms count as apart exactly when at least two whole columns or two whole rows lie between them |
| Rooms.IntersectsSymmetric | backend/dungeon_generator.py:18-22 | the padded overlap test gives the same answer in both argument orders |
| Rooms.ApartRoomsAreDisjoint | backend/dungeon_generator.py:18-22 | two rooms the overlap test accepts have no cell in common and no two of their cells are orthogonal neighbours |
| Rooms.CenterInside | backend/dungeon_generator.py:15-16 | a room's centre lies inside the room |
| Rooms.CenterInInterior | backend/dungeon_generator.py:15-16 | a room of at least 3×3 has its centre off its rim |
| Rooms.IntersectsAny | backend/dungeon_generator.py:121 | true exactly when some existing room overlaps the new one |
| Rooms.AppendKeepsApart | backend/dungeon_generator.py:121-122 | appending a room that overlaps none keeps all rooms pairwise apart |
| Draws.RandInt | backend/dungeon_generator.py:111-116 | a draw from `randint(lo, hi)` lies in `[lo, hi]` |
| Draws.RandIntCovers | backend/dungeon_generator.py:111-116 | every value in `[lo, hi]` is produced by some draw, so no room shape or position is excluded |
| Draws.Chance | backend/dungeon_generator.py:148 | `random.random() < p` as a coin on a raw draw; a chance of 0 never succeeds and one of 100 always does. Every coin of the generator goes through it: lines 148, 168, 210, 238, 250 and 258 |
| Draws.ChanceCovers | backend/dungeon_generator.py:148 | a coin strictly between 0 and 100 percent can come out either way, so the oracle excludes neither branch of any coin |
| Draws.ChanceOdds | backend/dungeon_generator.py:148 | exactly `percent` of the hundred residues of a draw make the coin succeed, so it succeeds with probability `p` |
| Corridors.LineShape | backend/dungeon_generator.py:150-153 | a straight run goes from its first cell to its last through orthogonal steps and stays on the segment |
| Corridors.LineCovers | backend/dungeon_generator.py:150-153 | a straight run passes through every cell of its segment, so with LineShape it covers exactly the segment |
| Corridors.LPathShape | backend/dungeon_generator.py:142-159 | the two legs, horizontal or vertical first, form one walk from the start to the end that stays on the corridor cells |
| Corridors.CorridorConnects | backend/dungeon_generator.py:142-159 | once every corridor cell is floor, the end is reachable from the start |
| Pathfinding.Heuristic | backend/pathfinding.py:19-21 | the distance is 0 exactly between equal cells and 1 exactly between orthogonal neighbours |
| Pathfinding.HeuristicIsMetric | backend/pathfinding.py:19-21 | the Manhattan distance is zero only on equal cells; it is symmetric and obeys the triangle inequality; it is 1 exactly for orthogonal neighbours |
| Pathfinding.Neighbors | backend/pathfinding.py:23-32 | at most four cells, each an orthogonal neighbour that is an in-grid floor cell |
| Pathfinding.NeighborsSpec | backend/pathfinding.py:23-32 | there are at most four neighbours: exactly the orthogonal neighbours inside the grid whose glyph is floor |
| Pathfinding.GetNeighbors | backend/pathfinding.py:23-32 | the loop returns the open neighbours in the order down, right, up, left |
| Pathfinding.MinEntryExists | backend/pathfinding.py:46 | a non-empty open list has an entry of least f-cost |
| Pathfinding.ChainIsWalk | backend/pathfinding.py:48-53 | following parent links from any node gives a walk from the start to that node whose length is its g-cost plus one |
| Pathfinding.ChainIsDistinct | backend/pathfinding.py:55-59 | such a chain visits no cell twice, because parents are closed before their children |
| Pathfinding.WalkStaysInside | backend/pathfinding.py:55-64 | a walk that starts in a region closed under open-neighbour steps never leaves it |
| Pathfinding.Reconstruct | backend/pathfinding.py:48-53 | collecting the parent links and reversing them yields the chain from the start to the current node |
| Pathfinding.HasBetterEntry | backend/pathfinding.py:66-71 | the scan stops exactly when the open list already holds the neighbour's cell at a cost no higher |
| Pathfinding.ExpandStep | backend/pathfinding.py:55-71 | closing a node and pushing its neighbours keeps the search invariant: well-linked parents, closing order, coverage of every closed cell's neighbours |
| Pathfinding.Search | backend/pathfinding.py:37-71 | the loop ends either on an open node at the end cell or with an empty open list, with the search invariant holding |
| Pathfinding.FoundPath | backend/pathfinding.py:48-53 | when the end is popped, the reconstructed path is a walk from start to end without repeated cells |
| Pathfinding.NoPathLeft | backend/pathfinding.py:45-73 | when the open list runs dry, the end cannot be reached from the start |
| Pathfinding.FindPath | backend/pathfinding.py:34-73 | a non-empty result is a repetition-free walk of floor steps from start to end; the result is empty exactly when the end is unreachable; equal start and end give the one-cell path; a non-floor end gives the empty path |
| Dungeon.Fogged | backend/dungeon_generator.py:264-270 | fog keeps glyph and monster; afterwards only walls that were visible stay visible |
| Dungeon.FoggedIdempotent | backend/dungeon_generator.py:264-270 | fogging twice is fogging once |
| Dungeon.UpperChar | backend/dungeon_generator.py:220 | ASCII lower-case letters map to their capitals; everything else is unchanged |
| Dungeon.Completed | backend/dungeon_generator.py:218-222 | a monster gains its name's capitalised initial as display character, and red as colour, only where these were missing; given values are kept |
| Dungeon.CompletedIdempotent | backend/dungeon_generator.py:218-222 | completing a monster twice changes nothing more |
| Dungeon.CompletedKeepsComplete | backend/dungeon_generator.py:218-222 | a monster that already has both fields is left as it is |
| Dungeon.CompletionKeepsComplete | backend/dungeon_generator.py:217-222 | completing one catalogue entry keeps every complete entry in the catalogue |
| Dungeon.CatalogEvolvesTrans | backend/dungeon_generator.py:208-235 | catalogue completions compose across rooms |
| Dungeon.Candidate | backend/dungeon_generator.py:111-118 | every drawn room fits in the map with a margin of one cell on each side |
| Dungeon.CandidateCovers | backend/dungeon_generator.py:111-118 | every 5–12 by 5–8 room with that margin is the candidate of some draw |
| Dungeon.WaterSpot | backend/dungeon_generator.py:251-252 | the drawn water cell lies inside the room, off its rim |
| Dungeon.TrapSpot | backend/dungeon_generator.py:259-260 | the drawn trap cell lies inside the room, off its rim |
| Dungeon.TrapSpotFresh | backend/dungeon_generator.py:257-262 | no earlier room's trap can fall on this room's trap cell, because rooms are apart |
| Dungeon.InteriorsDisjoint | backend/dungeon_generator.py:121 | interiors of different accepted rooms share no cell |
| Dungeon.WaterAtNext | backend/dungeon_generator.py:249-253 | room `k`'s turn adds water exactly at its drawn cell when its 20% coin succeeds |
| Dungeon.TrapAtNext | backend/dungeon_generator.py:257-262 | room `k`'s turn adds a trap exactly at its drawn cell when its 30% coin succeeds |
| Dungeon.OnCorridorsNext | backend/dungeon_generator.py:137-140 | the corridor cells after link `i` are those before it plus link `i`'s L-shape |
| Dungeon.Links | backend/dungeon_generator.py:137 | there is one corridor fewer than rooms, and none when there are no rooms |
| Dungeon.CenterInner | backend/dungeon_generator.py:15-16 | a room's centre is inside the room and off the map border |
| Dungeon.CorridorCellsInner | backend/dungeon_generator.py:135-159 | corridors between room centres never touch the map border |
| Dungeon.CorridorInBox | backend/dungeon_generator.py:150-159 | every corridor cell lies in the box spanned by its two ends |
| Dungeon.CorridorsConnect | backend/dungeon_generator.py:135-140 | once the corridors are floor, each room's centre reaches the next room's centre |
| Dungeon.FollowerTarget | backend/dungeon_generator.py:322-326 | the member before follower `i` already stands on the spawn cell |
| Dungeon.FollowerMoves | backend/dungeon_generator.py:337-342 | placing follower `i` on the spawn cell extends the placed prefix by one |
| Dungeon.PartyOnSpawn | backend/dungeon_generator.py:312-348 | after placement every member stands on the spawn cell and keeps all its other fields |
| Dungeon.DungeonGenerator.constructor | backend/dungeon_generator.py:25-43 | a generator of the given size with no rooms, no corridors, an empty grid and the loaded monster catalogue |
| Dungeon.DungeonGenerator.CarveRoom | backend/dungeon_generator.py:128-133 | exactly the room's in-map cells become floor; the rest is unchanged |
| Dungeon.DungeonGenerator.CarveRow | backend/dungeon_generator.py:150-151 | exactly the row segment between the two columns becomes floor |
| Dungeon.DungeonGenerator.CarveColumn | backend/dungeon_generator.py:152-153 | exactly the column segment between the two rows becomes floor |
| Dungeon.DungeonGenerator.CarveCorridor | backend/dungeon_generator.py:142-159 | exactly the two legs of the L become floor, and the end is reachable from the start afterwards |
| Dungeon.DungeonGenerator.IsValidPosition | backend/dungeon_generator.py:289-293 | a valid position lies in the grid; every floor cell is valid; water is valid although it is not walkable; a wall never is |
| Dungeon.DungeonGenerator.IsValidDoorPosition | backend/dungeon_generator.py:171-188 | true exactly for an in-map wall with exactly two floor neighbours |
| Dungeon.DungeonGenerator.AddFogOfWar | backend/dungeon_generator.py:264-270 | every cell becomes its fogged tile; a wall border and the absence of doors on the border are kept |
| Dungeon.DungeonGenerator.RevealArea | backend/dungeon_generator.py:272-279 | exactly the in-map cells within Euclidean radius become visible; nothing else changes |
| Dungeon.DungeonGenerator.TryAddRoom | backend/dungeon_generator.py:107-126 | success exactly when one of the 100 candidates overlaps no room; the first such candidate is appended and carved; on failure nothing changes; room floors, the wall border and the door-free border are kept |
| Dungeon.DungeonGenerator.ConnectRooms | backend/dungeon_generator.py:135-140 | exactly the corridor cells become floor, and each room's centre then reaches the next room's centre |
| Dungeon.DungeonGenerator.DoorsInRoom | backend/dungeon_generator.py:163-169 | a cell changes only from wall to door, inside the room; with the room's own cells all floor, nothing changes |
| Dungeon.DungeonGenerator.AddDoors | backend/dungeon_generator.py:161-169 | a cell changes only from wall to door, inside some room; with every room floored, nothing changes |
| Dungeon.DungeonGenerator.AddStairs | backend/dungeon_generator.py:190-200 | up stairs go on the first room's centre and down stairs on the last; with one room the down stairs win; without rooms nothing changes |
| Dungeon.DungeonGenerator.PlaceMonster | backend/dungeon_generator.py:208-235 | a cell changes only from floor to a tile of a catalogue monster in the room's interior; complete catalogue entries survive; a failed 50% coin changes nothing |
| Dungeon.DungeonGenerator.PlaceTreasure | backend/dungeon_generator.py:237-245 | a cell changes only from floor to treasure in the room's interior; a failed 30% coin changes nothing |
| Dungeon.DungeonGenerator.AddMonstersAndTreasure | backend/dungeon_generator.py:202-245 | only floor cells inside middle rooms change, to treasure or a monster tile; with an empty catalogue nothing at all changes |
| Dungeon.DungeonGenerator.AddWaterFeatures | backend/dungeon_generator.py:247-253 | water appears exactly on the drawn cells of rooms whose coin succeeds; nothing else changes |
| Dungeon.DungeonGenerator.AddTraps | backend/dungeon_generator.py:255-262 | a trap appears exactly on the drawn cell of a middle room whose coin succeeds, and only on floor |
| Dungeon.DungeonGenerator.Generate | backend/dungeon_generator.py:72-105 | a fresh grid of the requested size; its rooms are this call's rooms, each the candidate of one of at most `max_rooms` slots, fitting the map and pairwise apart; walls all round the border; no door tile anywhere, because the door scan visits only room cells, which are all floor by then; every non-wall tile is hidden by the fog; catalogue entries change only by completion |
| Dungeon.DungeonGenerator.SpawnColumn | backend/dungeon_generator.py:300-310 | the spawn search stops on the first floor cell of the middle row in the left quarter, or passes the quarter when there is none |
| Dungeon.DungeonGenerator.PlaceFollowers | backend/dungeon_generator.py:321-348 | every follower lands on the spawn cell, because the path to the member ahead ends there; only the spawn cell changes, to the last member's colour |
| Dungeon.DungeonGenerator.PlaceAt | backend/dungeon_generator.py:312-348 | the whole party stands on the spawn cell; that cell alone changes and shows the last placed member's class colour |
| Dungeon.DungeonGenerator.PlaceParty | backend/dungeon_generator.py:295-350 | success exactly when the party is non-empty and the left quarter of the middle row holds a floor cell; then all members stand on the first such cell; on failure nothing changes |
| Movement.Step | backend/app.py:131-140 | north decreases y, south increases y, east increases x, west decreases x; any other word stays put |
| Movement.StepIsAdjacent | backend/app.py:131-140 | a known direction moves to an orthogonal neighbour; an unknown one does not move |
| Movement.EventMessage | backend/app.py:183-203 | a monster's encounter message takes precedence; there is no message exactly when there is no monster and the glyph is none of `$ < > + ~ ^ i` |
| Movement.WalkTail | backend/app.py:170-172 | the second cell of a path is an open neighbour of the first, from which the end is still reachable |
| Movement.AdvanceParty | backend/app.py:146-178 | the leader takes the target; each follower moves one open step towards the new position of the member ahead when that is reachable and elsewhere, and otherwise stays |
| Movement.MoveParty | backend/app.py:114-209 | a missing direction and an empty party are rejected; a target off the map or on a wall is blocked and changes nothing; otherwise the party advances, radius 5 round the leader becomes visible, and the reply carries the new state and the tile event |
| Game.LogLine | backend/game_state.py:45-46 | the log line is the timestamp in brackets, a space, then the message |
| Game.LastEntries | backend/game_state.py:47-49 | keeps the last `n` entries in order, or all of them when there are fewer |
| Game.SnapshotRectangular | backend/game_state.py:134-144 | a grid copied row by row is rectangular |
| Game.GameState.constructor | backend/game_state.py:7-13 | an empty party on level 1, not in combat, no combat record, an empty log |
| Game.GameState.AddCharacter | backend/game_state.py:16-21 | appends exactly when the party has fewer than four members, so the party never exceeds four |
| Game.GameState.RemoveCharacter | backend/game_state.py:23-28 | removes exactly the member at a valid index and keeps the others in order |
| Game.GameState.GetCharacter | backend/game_state.py:30-34 | returns the member at a valid index and nothing otherwise |
| Game.GameState.UpdateCharacter | backend/game_state.py:36-41 | at a valid index the member gains every update and keeps its other fields; no other member changes |
| Game.GameState.AddMessage | backend/game_state.py:43-49 | the new line comes last, the log holds at most 100 lines, and it keeps the most recent lines in order |
| Game.GameState.ToDict | backend/game_state.py:131-153 | the snapshot holds every field, and the grid copied cell by cell |
| Game.GameState.FromDict | backend/game_state.py:155-165 | a fresh session holding the snapshot's fields, whose grid has the snapshot's cells |
| Game.RoundTrip | backend/game_state.py:131-165 | reading back a snapshot reproduces the party, the level, the combat flag and record, the log and every grid cell, in a new grid |
| Rules.SumBounds | backend/adnd_rules.py:154 | the sum of N rolls of an S-sided die lies between N and N·S |
| Rules.ThreeDice | backend/adnd_rules.py:88 | the sum of three d6 lies between 3 and 18 |
| Rules.RollAbilityScores | backend/adnd_rules.py:83-89 | "3d6" gives exactly the six abilities, each the sum of its three dice, all in 3..18; any other method gives no scores |
| Rules.Clamp | backend/adnd_rules.py:96 | the result lies in 3..18, equals the input inside that range and the nearer end outside it |
| Rules.ApplyRacialModifiers | backend/adnd_rules.py:92-97 | the loop over the race's modifiers computes the modified scores |
| Rules.Modified | backend/adnd_rules.py:92-97 | the same abilities come back, and every score the race modifies lies in 3..18 |
| Rules.ModifiedSpec | backend/adnd_rules.py:92-97 | the same abilities come back; modified ones are clamped to 3..18 and exact when in range; unmodified ones are kept; an unknown race changes nothing |
| Rules.ElfOnTens | backend/adnd_rules.py:63-97 | an elf with all tens gets DEX 11 and CON 9 |
| Rules.CheckClassRequirements | backend/adnd_rules.py:100-109 | accepted exactly when the race is not barred from the class and every required minimum is met; an unknown class accepts every race that is not barred |
| Rules.NoLizardfolkOrGoblinPaladins | backend/adnd_rules.py:77-80 | a Lizardfolk or Goblin Paladin is refused whatever the scores |
| Rules.RequirementsMonotone | backend/adnd_rules.py:100-109 | raising scores never turns an acceptance into a refusal |
| Rules.AbilityModifier | backend/adnd_rules.py:158-160 | the modifier is the floor of (score − 10) / 2 |
| Rules.AbilityModifierMonotone | backend/adnd_rules.py:158-160 | a higher score never has a lower modifier |
| Rules.LevelBonus | backend/adnd_rules.py:130 | the bonus is the floor of (level − 1) / 3 |
| Rules.LevelBonusMonotone | backend/adnd_rules.py:130 | the bonus never falls as the level rises |
| Rules.Thac0 | backend/adnd_rules.py:127-131 | THAC0 is 20 minus the floor of (level − 1) / 3 |
| Rules.Thac0Spec | backend/adnd_rules.py:127-131 | THAC0 does not depend on the class, never rises with level, and is at most 20 from level 1 |
| Rules.CalculateSavingThrows | backend/adnd_rules.py:134-142 | the class's save categories, each at its base lowered by the level bonus with a floor of 2; an unknown class gives none |
| Rules.SaveAt | backend/adnd_rules.py:137-140 | a save is at least 2, and from level 1 at most its base or 2 |
| Rules.SaveAtSpec | backend/adnd_rules.py:137-140 | a save is at least 2, at most its base from level 1, and never rises with level |
| Rules.PowerOfTwo | backend/adnd_rules.py:183 | powers of two, also for negative exponents, are positive |
| Rules.XpForLevel | backend/adnd_rules.py:169-183 | the experience threshold is positive at every level |
| Rules.XpDoubles | backend/adnd_rules.py:169-183 | the threshold doubles from each level to the next |
| Rules.XpIsWhole | backend/adnd_rules.py:169-183 | from level 1 the threshold is the class base, or 2000, times a natural power of two, and it is positive |
| Rules.LaterGainsBounds | backend/adnd_rules.py:121-122 | every later level adds at least 1 and at most max(1, die + CON) hit points |
| Rules.CalculateHitPoints | backend/adnd_rules.py:112-124 | the loop computes the hit points for the rolls, and they are at least 1 |
| Rules.HitPoints | backend/adnd_rules.py:112-124 | hit points are at least 1 |
| Rules.HitPointsBounds | backend/adnd_rules.py:112-124 | hit points lie between max(1, levels + CON) and levels · max(1, die + CON); a level-1 character without a CON bonus has between 1 and the die size |
| Rules.Damage | backend/adnd_rules.py:151-155 | damage is at least 1 |
| Rules.DamageBounds | backend/adnd_rules.py:151-155 | damage lies between max(1, N + STR) and max(1, N·S + STR) for `NdS` |
| Rules.StartingGold | backend/adnd_rules.py:186-213 | an unknown class gets 0 gold, and the gold is always a multiple of the multiplier 10 |
| Rules.StartingGoldBounds | backend/adnd_rules.py:186-213 | an unknown class starts with 0 gold; otherwise the gold lies between 10·N and 10·N·S for the class's `NdS` |

## Left out

- File I/O: the monster catalogue comes from `data/monsters.json` in the source. Here it is a constructor parameter, and a failed load is the empty catalogue.
- `print` diagnostics.
- The HTTP layer: Flask routes, JSON requests and responses. `move_party` is modelled on its arguments and reply.
- Save-game files: `save_game`, `load_game`, `list_saves`, `delete_save` and the `save_slots` field are file-system I/O.
- `get_empty_position` is not modelled. It loops until a random draw hits floor and need not terminate.
- `resolve_attack` and `check_morale` are not modelled. Each is a single random comparison outside the modelled core.
- Probabilities are not modelled. Coins and draws are oracle values, so contracts hold for every outcome; how often a room, door or monster appears is not stated.
- Pathfinding.FindPath: does not state that the path is shortest. Ties in the source's heap order are left open, so only validity, no repetition and completeness are proved.
- Rules.XpForLevel: computed over reals, so the float result `2 ** (level - 1)` gives for levels below 1 is exact here. Float rounding is not modelled.
- Rules.Damage and Rules.StartingGoldBounds: take the dice as count and sides rather than parsing a `"NdS"` string. A malformed weapon string, which makes the source raise, is not modelled.
- Rules.ApplyRacialModifiers and Rules.CheckClassRequirements: require the modified or required abilities to be present, where the source raises `KeyError`.
- Rules.ApplyRacialModifiers: returns the new scores instead of updating the caller's dictionary in place.
- Dungeon.DungeonGenerator.PlaceParty: returns the updated party records instead of mutating the caller's dictionaries.
- Movement.MoveParty: the new party is written back to the session as a sequence. The source's aliasing between the session's party and the reply is not modelled.
- Game.GameState.FromDict: requires rectangular rows, since a two-dimensional array needs them.
- Game.GameState.FromDict and Game.GameState.ToDict: the source shares the party, combat and message lists between the snapshot and the session. Here they are values.
- Dungeon.DungeonGenerator.Generate: requires `min_rooms <= max_rooms`, without which `randint(min_rooms, max_rooms)` always raises `ValueError`. It also requires a map of at least 14 by 10, on which every room draw has a valid position. On a smaller map the source raises only for some draws: a room wider than the map width minus 2 or taller than the map height minus 2 leaves an empty position range; below 7 in either dimension every draw raises; and when `randint(min_rooms, max_rooms)` gives 0 or less, no room is drawn and nothing raises. Those maps are not modelled. Every caller uses the default 80 by 48 map with 12 to 20 rooms.
- Dungeon.DungeonGenerator.Generate: does not state how many rooms are drawn beyond the `max_rooms` bound.
- Dungeon.DungeonGenerator.PlaceMonster, Dungeon.DungeonGenerator.PlaceTreasure and Dungeon.DungeonGenerator.AddMonstersAndTreasure: state where a feature may go and onto what. They do not state which of the ten attempts succeeds.
- Dungeon.DungeonGenerator.PlaceMonster: `random.choice` is a draw from the oracle. The `except` branch is modelled for the `IndexError` that `name[0]` raises on an entry with no display character and an empty name: that attempt places nothing and the next attempt starts. A catalogue entry with no `name` key at all, which raises `KeyError` there, is not modelled, because every monster has a name.
- `Room.connected` is never read and is not modelled.
- Dungeon.UpperChar: upper-cases ASCII letters only. Python's Unicode `upper()` is not modelled.
- Movement.MoveParty: requires the session's grid and the generator's grid to be one object, as a new game or a new party sets them up. After a saved game is loaded the two are different lists in the source: the move checks and reveals cells on the generator's grid but finds paths and reads the event tile on the session's grid. That case is not modelled.
- Movement.MoveParty: takes the direction as an optional string. A non-string JSON value is not modelled.
- A tile's `monster_data` is the monster record itself in the source, shared with the catalogue. Here it is a copy of the completed entry.
