/**
 * The game session (backend/game_state.py): the party, the current level,
 * the dungeon grid, the combat flag and record, and the message log, with
 * the snapshot `to_dict` produces and `from_dict` reads back.
 */
module Game {
  import opened Values
  import opened Tiles

  const MaxPartySize: nat := 4
  const MaxMessages: nat := 100

  /** The dictionary `to_dict` returns; the grid is copied cell by cell. */
  datatype Snapshot = Snapshot(
    party: seq<Character>,
    currentLevel: int,
    dungeon: seq<seq<Tile>>,
    inCombat: bool,
    combat: Option<map<string, Value>>,
    messages: seq<string>)

  /** A grid given as rows, all of the same length. */
  predicate Rectangular(rows: seq<seq<Tile>>) {
    forall y :: 0 <= y < |rows| ==> |rows[y]| == |rows[0]|
  }

  /** The log line `add_message` stores: the timestamp in brackets, then the message. */
  function LogLine(timestamp: string, message: string): (line: string)
    ensures |line| == |timestamp| + |message| + 3
    ensures line[0] == '[' && line[|timestamp| + 1] == ']' && line[|timestamp| + 2] == ' '
    ensures line[1..|timestamp| + 1] == timestamp && line[|timestamp| + 3..] == message
  {
    "[" + timestamp + "] " + message
  }

  /** The last `n` entries of a log, or all of it when it is shorter. */
  function LastEntries(log: seq<string>, n: nat): (r: seq<string>)
    ensures |r| == if |log| <= n then |log| else n
    ensures forall i :: 0 <= i < |r| ==> r[i] == log[|log| - |r| + i]
  {
    if |log| <= n then log else log[|log| - n..]
  }

  class GameState {
    var party: seq<Character>
    var currentLevel: int
    var dungeon: array2<Tile>
    var inCombat: bool
    var combat: Option<map<string, Value>>
    var messages: seq<string>

    /** `__init__`: an empty party on level 1, no grid yet, no combat and an empty log. */
    constructor ()
      ensures party == [] && currentLevel == 1 && !inCombat && combat == None && messages == []
      ensures dungeon.Length0 == 0 && dungeon.Length1 == 0
    {
      party := [];
      currentLevel := 1;
      dungeon := new Tile[0, 0];
      inCombat := false;
      combat := None;
      messages := [];
    }

    /** `add_character`: appends while the party has fewer than four members; otherwise refuses. */
    method AddCharacter(character: Character) returns (added: bool)
      modifies this
      ensures added <==> |old(party)| < MaxPartySize
      ensures added ==> party == old(party) + [character]
      ensures !added ==> party == old(party)
      ensures |old(party)| <= MaxPartySize ==> |party| <= MaxPartySize
      ensures currentLevel == old(currentLevel) && dungeon == old(dungeon) && inCombat == old(inCombat)
      ensures combat == old(combat) && messages == old(messages)
    {
      if |party| < MaxPartySize {
        party := party + [character];
        return true;
      }
      return false;
    }

    /** `remove_character`: removes exactly the member at a valid index, keeping the order of the rest. */
    method RemoveCharacter(index: int) returns (removed: bool)
      modifies this
      ensures removed <==> 0 <= index < |old(party)|
      ensures removed ==> party == old(party)[..index] + old(party)[index + 1..]
      ensures !removed ==> party == old(party)
      ensures currentLevel == old(currentLevel) && dungeon == old(dungeon) && inCombat == old(inCombat)
      ensures combat == old(combat) && messages == old(messages)
    {
      if 0 <= index < |party| {
        party := party[..index] + party[index + 1..];
        return true;
      }
      return false;
    }

    /** `get_character`: the member at a valid index, or nothing. */
    method GetCharacter(index: int) returns (character: Option<Character>)
      ensures character.Some? <==> 0 <= index < |party|
      ensures character.Some? ==> character.value == party[index]
    {
      if 0 <= index < |party| {
        return Some(party[index]);
      }
      return None;
    }

    /**
     * `update_character`: at a valid index the member's record takes every
     * field of `updates`, overriding the fields it had; no other member changes.
     */
    method UpdateCharacter(index: int, updates: map<string, Value>) returns (updated: bool)
      modifies this
      ensures updated <==> 0 <= index < |old(party)|
      ensures |party| == |old(party)|
      ensures forall i :: 0 <= i < |party| && i != index ==> party[i] == old(party)[i]
      ensures updated ==> party[index].Keys == old(party)[index].Keys + updates.Keys
      ensures updated ==> forall k :: k in updates ==> party[index][k] == updates[k]
      ensures updated ==> forall k :: k in old(party)[index] && k !in updates ==> party[index][k] == old(party)[index][k]
      ensures !updated ==> party == old(party)
      ensures currentLevel == old(currentLevel) && dungeon == old(dungeon) && inCombat == old(inCombat)
      ensures combat == old(combat) && messages == old(messages)
    {
      if 0 <= index < |party| {
        party := party[index := party[index] + updates];
        return true;
      }
      return false;
    }

    /**
     * `add_message`, with the clock reading as a parameter: the new line is
     * last, the log keeps at most 100 lines, and the lines kept are the
     * most recent ones in their order.
     */
    method AddMessage(message: string, timestamp: string)
      modifies this
      ensures messages == LastEntries(old(messages) + [LogLine(timestamp, message)], MaxMessages)
      ensures |messages| <= MaxMessages
      ensures messages[|messages| - 1] == LogLine(timestamp, message)
      ensures party == old(party) && currentLevel == old(currentLevel) && dungeon == old(dungeon)
      ensures inCombat == old(inCombat) && combat == old(combat)
    {
      messages := messages + [LogLine(timestamp, message)];
      if |messages| > MaxMessages {
        messages := messages[|messages| - MaxMessages..];
      }
    }

    /** `to_dict`: every field as it is, and a cell-by-cell copy of the grid. */
    method ToDict() returns (snapshot: Snapshot)
      ensures snapshot.party == party && snapshot.currentLevel == currentLevel
      ensures snapshot.inCombat == inCombat && snapshot.combat == combat && snapshot.messages == messages
      ensures |snapshot.dungeon| == dungeon.Length0
      ensures forall y :: 0 <= y < dungeon.Length0 ==> |snapshot.dungeon[y]| == dungeon.Length1
      ensures forall y, x :: 0 <= y < dungeon.Length0 && 0 <= x < dungeon.Length1 ==> snapshot.dungeon[y][x] == dungeon[y, x]
    {
      var rows: seq<seq<Tile>> := [];
      for y := 0 to dungeon.Length0
        invariant |rows| == y
        invariant forall yy :: 0 <= yy < y ==> |rows[yy]| == dungeon.Length1
        invariant forall yy, x :: 0 <= yy < y && 0 <= x < dungeon.Length1 ==> rows[yy][x] == dungeon[yy, x]
      {
        var row: seq<Tile> := [];
        for x := 0 to dungeon.Length1
          invariant |row| == x
          invariant forall xx :: 0 <= xx < x ==> row[xx] == dungeon[y, xx]
        {
          row := row + [dungeon[y, x]];
        }
        rows := rows + [row];
      }
      snapshot := Snapshot(party, currentLevel, rows, inCombat, combat, messages);
    }

    /**
     * `from_dict`: a new session holding the snapshot's fields; its grid
     * has the snapshot's rows, cell by cell.
     */
    constructor FromDict(data: Snapshot)
      requires Rectangular(data.dungeon)
      ensures fresh(dungeon)
      ensures party == data.party && currentLevel == data.currentLevel
      ensures inCombat == data.inCombat && combat == data.combat && messages == data.messages
      ensures dungeon.Length0 == |data.dungeon|
      ensures forall y :: 0 <= y < |data.dungeon| ==> dungeon.Length1 == |data.dungeon[y]|
      ensures forall y, x :: 0 <= y < dungeon.Length0 && 0 <= x < dungeon.Length1 ==> dungeon[y, x] == data.dungeon[y][x]
    {
      party := data.party;
      currentLevel := data.currentLevel;
      var width := if |data.dungeon| == 0 then 0 else |data.dungeon[0]|;
      dungeon := new Tile[|data.dungeon|, width]((y, x) requires 0 <= y < |data.dungeon| && 0 <= x < width => data.dungeon[y][x]);
      inCombat := data.inCombat;
      combat := data.combat;
      messages := data.messages;
    }
  }

  /** A grid produced by `to_dict` is rectangular, so `from_dict` accepts it. */
  lemma SnapshotRectangular(rows: seq<seq<Tile>>, width: nat)
    requires forall y :: 0 <= y < |rows| ==> |rows[y]| == width
    ensures Rectangular(rows)
  {
  }

  /**
   * `GameState.from_dict(state.to_dict())` reproduces the party, the level,
   * the grid cell by cell, the combat flag and record, and the log.
   */
  method RoundTrip(state: GameState) returns (copy: GameState)
    ensures fresh(copy) && copy.dungeon != state.dungeon
    ensures copy.party == state.party && copy.currentLevel == state.currentLevel
    ensures copy.inCombat == state.inCombat && copy.combat == state.combat && copy.messages == state.messages
    ensures copy.dungeon.Length0 == state.dungeon.Length0
    ensures state.dungeon.Length0 > 0 ==> copy.dungeon.Length1 == state.dungeon.Length1
    ensures forall y, x :: 0 <= y < copy.dungeon.Length0 && 0 <= x < copy.dungeon.Length1 ==>
      copy.dungeon[y, x] == state.dungeon[y, x]
  {
    var snapshot := state.ToDict();
    SnapshotRectangular(snapshot.dungeon, state.dungeon.Length1);
    copy := new GameState.FromDict(snapshot);
    if state.dungeon.Length0 > 0 {
      assert |snapshot.dungeon[0]| == state.dungeon.Length1;
    }
  }
}
