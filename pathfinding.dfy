/**
 * A* search over the 4-connected plain-floor cells of a grid
 * (backend/pathfinding.py).
 *
 * Search nodes live in an arena `nodes`; a node's parent link is the arena
 * index of its parent (-1 for none), so the parent of node `i` is always an
 * earlier node. The open set (a heap-ordered list in the source) is the set
 * of arena indices of the nodes pushed and not yet popped: the heap order
 * only decides which of several entries of least `f` is popped, and the pop
 * here may take any of them, so every property below holds whichever one
 * the heap yields.
 */
module Pathfinding {
  import opened Values
  import opened Tiles

  /** Manhattan distance, the A* heuristic. */
  function Heuristic(a: Pos, b: Pos): (h: nat)
    ensures h == 0 <==> a == b
    ensures h == 1 <==> Adjacent(a, b)
  {
    Abs(a.x - b.x) + Abs(a.y - b.y)
  }

  lemma HeuristicIsMetric(a: Pos, b: Pos, c: Pos)
    ensures Heuristic(a, b) == 0 <==> a == b
    ensures Heuristic(a, b) == Heuristic(b, a)
    ensures Heuristic(a, c) <= Heuristic(a, b) + Heuristic(b, c)
    ensures Adjacent(a, b) <==> Heuristic(a, b) == 1
  {
  }

  /** The four candidate cells, in the order the source tries them: (0,1), (1,0), (0,-1), (-1,0). */
  const Directions: seq<Pos> := [Pos(0, 1), Pos(1, 0), Pos(0, -1), Pos(-1, 0)]

  function Candidates(p: Pos): seq<Pos> {
    [Pos(p.x, p.y + 1), Pos(p.x + 1, p.y), Pos(p.x, p.y - 1), Pos(p.x - 1, p.y)]
  }

  /** The open cells among `cands`, in order. */
  function OpenAmong(grid: array2<Tile>, cands: seq<Pos>): (r: seq<Pos>)
    reads grid
    ensures |r| <= |cands|
    ensures forall q :: q in r <==> q in cands && Open(grid, q)
    decreases |cands|
  {
    if cands == [] then []
    else
      var last := cands[|cands| - 1];
      OpenAmong(grid, cands[..|cands| - 1]) + (if Open(grid, last) then [last] else [])
  }

  /** The neighbours `get_neighbors` returns for `p`. */
  function Neighbors(grid: array2<Tile>, p: Pos): (r: seq<Pos>)
    reads grid
    ensures |r| <= 4
    ensures forall q :: q in r ==> Adjacent(p, q) && Open(grid, q)
  {
    OpenAmong(grid, Candidates(p))
  }

  lemma AdjacentIsCandidate(p: Pos, q: Pos)
    ensures Adjacent(p, q) <==> q in Candidates(p)
  {
  }

  /** At most four neighbours, and exactly the orthogonally adjacent open cells. */
  lemma NeighborsSpec(grid: array2<Tile>, p: Pos)
    ensures |Neighbors(grid, p)| <= 4
    ensures forall q :: q in Neighbors(grid, p) <==> Adjacent(p, q) && Open(grid, q)
  {
    forall q
      ensures q in Neighbors(grid, p) <==> Adjacent(p, q) && Open(grid, q)
    {
      AdjacentIsCandidate(p, q);
    }
  }

  method GetNeighbors(pos: Pos, grid: array2<Tile>, width: int, height: int) returns (neighbors: seq<Pos>)
    requires width == grid.Length1 && height == grid.Length0
    ensures neighbors == Neighbors(grid, pos)
  {
    neighbors := [];
    var cands := Candidates(pos);
    for i := 0 to |Directions|
      invariant neighbors == OpenAmong(grid, cands[..i])
    {
      var d := Directions[i];
      var n := Pos(pos.x + d.x, pos.y + d.y);
      assert n == cands[i];
      assert cands[..i + 1][..i] == cands[..i];
      assert OpenAmong(grid, cands[..i + 1]) == OpenAmong(grid, cands[..i]) + (if Open(grid, n) then [n] else []);
      if 0 <= n.x < width && 0 <= n.y < height && grid[n.y, n.x].glyph == "." {
        neighbors := neighbors + [n];
      }
    }
    assert cands[..4] == cands;
  }

  /** A walk: a non-empty sequence of cells, each step onto an adjacent open cell. */
  ghost predicate IsWalk(grid: array2<Tile>, w: seq<Pos>)
    reads grid
  {
    |w| >= 1 && forall j :: 0 < j < |w| ==> Adjacent(w[j - 1], w[j]) && Open(grid, w[j])
  }

  ghost predicate Distinct(w: seq<Pos>) {
    forall a, b :: 0 <= a < b < |w| ==> w[a] != w[b]
  }

  /** `b` can be reached from `a` by a walk over open cells. */
  ghost predicate Reachable(grid: array2<Tile>, a: Pos, b: Pos)
    reads grid
  {
    exists w :: IsWalk(grid, w) && w[0] == a && w[|w| - 1] == b
  }

  /** A search node: position, cost so far `g`, heuristic `h`, parent index (-1 for none). */
  datatype Node = Node(pos: Pos, g: nat, h: nat, parent: int)

  function FCost(n: Node): int {
    n.g + n.h
  }

  ghost predicate ParentsBefore(nodes: seq<Node>) {
    forall i :: 0 <= i < |nodes| ==> nodes[i].parent < i
  }

  /** The positions from the root of node `i`'s parent chain down to node `i`. */
  function Chain(nodes: seq<Node>, i: nat): seq<Pos>
    requires i < |nodes| && ParentsBefore(nodes)
    decreases i
  {
    if nodes[i].parent < 0 then [nodes[i].pos]
    else Chain(nodes, nodes[i].parent) + [nodes[i].pos]
  }

  /** Node `i` (not the start node) was generated as a neighbour of its parent. */
  ghost predicate Linked(grid: array2<Tile>, end: Pos, nodes: seq<Node>, i: nat)
    requires 0 < i < |nodes|
    reads grid
  {
    var n := nodes[i];
    0 <= n.parent < i && Adjacent(nodes[n.parent].pos, n.pos) && Open(grid, n.pos) &&
    n.g == nodes[n.parent].g + 1 && n.h == Heuristic(n.pos, end)
  }

  ghost predicate WellLinked(grid: array2<Tile>, start: Pos, end: Pos, nodes: seq<Node>)
    reads grid
  {
    |nodes| >= 1 && nodes[0] == Node(start, 0, 0, -1) &&
    forall i :: 0 < i < |nodes| ==> Linked(grid, end, nodes, i)
  }

  /**
   * Closing order: every parent's position was closed, and closed before its
   * child's position if that one is closed too (`closeT` records when).
   */
  ghost predicate Ordered(nodes: seq<Node>, closed: set<Pos>, closeT: map<Pos, nat>) {
    closeT.Keys == closed && forall i :: 0 < i < |nodes| ==> ClosedBefore(nodes, closeT, i)
  }

  /** Node `i`'s parent cell is closed, and closed earlier than node `i`'s cell if that is closed. */
  ghost predicate ClosedBefore(nodes: seq<Node>, closeT: map<Pos, nat>, i: nat)
    requires 0 < i < |nodes|
  {
    var par := nodes[i].parent;
    0 <= par < |nodes| ==>
      nodes[par].pos in closeT &&
      (nodes[i].pos in closeT ==> closeT[nodes[par].pos] < closeT[nodes[i].pos])
  }

  /** Some open entry sits on `q` with cost at most `bound`. */
  ghost predicate HasEntry(nodes: seq<Node>, open: set<nat>, q: Pos, bound: int) {
    exists k :: k in open && k < |nodes| && nodes[k].pos == q && nodes[k].g <= bound
  }

  /** Every neighbour of the closed cell `c` is closed or has an open entry of cost at most `gc + 1`. */
  ghost predicate Covered(grid: array2<Tile>, nodes: seq<Node>, open: set<nat>, closed: set<Pos>, c: Pos, gc: int)
    reads grid
  {
    forall q :: Adjacent(c, q) && Open(grid, q) ==> q in closed || HasEntry(nodes, open, q, gc + 1)
  }

  lemma {:induction false} MinEntryExists(nodes: seq<Node>, open: set<nat>)
    requires open != {} && forall k :: k in open ==> k < |nodes|
    ensures exists m :: m in open && forall k :: k in open ==> FCost(nodes[m]) <= FCost(nodes[k])
  {
    var x :| x in open;
    if open - {x} != {} {
      MinEntryExists(nodes, open - {x});
      var m :| m in open - {x} && forall k :: k in open - {x} ==> FCost(nodes[m]) <= FCost(nodes[k]);
      if FCost(nodes[x]) < FCost(nodes[m]) {
        assert forall k :: k in open ==> FCost(nodes[x]) <= FCost(nodes[k]);
      } else {
        assert forall k :: k in open ==> FCost(nodes[m]) <= FCost(nodes[k]);
      }
    } else {
      assert open == {x};
    }
  }

  /** A parent chain is a walk from the start to the node, one cell longer than the node's cost. */
  lemma {:induction false} ChainIsWalk(grid: array2<Tile>, start: Pos, end: Pos, nodes: seq<Node>, i: nat)
    requires WellLinked(grid, start, end, nodes) && i < |nodes|
    ensures ParentsBefore(nodes)
    ensures IsWalk(grid, Chain(nodes, i))
    ensures Chain(nodes, i)[0] == start
    ensures Chain(nodes, i)[|Chain(nodes, i)| - 1] == nodes[i].pos
    ensures |Chain(nodes, i)| == nodes[i].g + 1
    decreases i
  {
    assert ParentsBefore(nodes) by {
      forall j | 0 <= j < |nodes| ensures nodes[j].parent < j {
        if j > 0 { assert Linked(grid, end, nodes, j); }
      }
    }
    if i > 0 {
      assert Linked(grid, end, nodes, i);
      var p := nodes[i].parent;
      ChainIsWalk(grid, start, end, nodes, p);
      var c := Chain(nodes, p);
      assert Chain(nodes, i) == c + [nodes[i].pos];
    }
  }

  /** Along a parent chain, closing times strictly increase, so no cell occurs twice. */
  lemma {:induction false} ChainIsDistinct(nodes: seq<Node>, closed: set<Pos>, closeT: map<Pos, nat>, i: nat)
    requires ParentsBefore(nodes) && i < |nodes| && Ordered(nodes, closed, closeT)
    requires forall j :: 0 < j < |nodes| ==> nodes[j].parent >= 0
    ensures forall a, b :: 0 <= a < b < |Chain(nodes, i)| ==>
      Chain(nodes, i)[a] in closed &&
      (Chain(nodes, i)[b] in closed ==> closeT[Chain(nodes, i)[a]] < closeT[Chain(nodes, i)[b]])
    ensures Distinct(Chain(nodes, i))
    decreases i
  {
    var c := Chain(nodes, i);
    if nodes[i].parent >= 0 {
      var p := nodes[i].parent;
      assert ClosedBefore(nodes, closeT, i);
      ChainIsDistinct(nodes, closed, closeT, p);
      var cp := Chain(nodes, p);
      assert c == cp + [nodes[i].pos];
      if p > 0 {
        assert nodes[p].parent >= 0;
      }
      assert cp[|cp| - 1] == nodes[p].pos;
      assert nodes[p].pos in closed;
      forall a, b | 0 <= a < b < |c|
        ensures c[a] in closed && (c[b] in closed ==> closeT[c[a]] < closeT[c[b]])
      {
        if b < |c| - 1 {
          assert c[a] == cp[a] && c[b] == cp[b];
        } else if a < |cp| - 1 {
          assert c[a] == cp[a];
          assert closeT[cp[a]] < closeT[cp[|cp| - 1]];
        }
      }
    }
  }

  /** A walk that starts in a region closed under taking neighbours never leaves it. */
  lemma {:induction false} WalkStaysInside(grid: array2<Tile>, region: set<Pos>, w: seq<Pos>)
    requires IsWalk(grid, w) && w[0] in region
    requires forall c, q :: c in region && Adjacent(c, q) && Open(grid, q) ==> q in region
    ensures forall j :: 0 <= j < |w| ==> w[j] in region
    decreases |w|
  {
    if |w| > 1 {
      var w' := w[..|w| - 1];
      assert IsWalk(grid, w') by {
        forall j | 0 < j < |w'| ensures Adjacent(w'[j - 1], w'[j]) && Open(grid, w'[j]) {
          assert w'[j - 1] == w[j - 1] && w'[j] == w[j];
        }
      }
      WalkStaysInside(grid, region, w');
      var n := |w| - 1;
      assert w[n - 1] == w'[n - 1];
    }
  }

  /** `path[::-1]`. */
  function Reversed(s: seq<Pos>): (r: seq<Pos>)
    ensures |r| == |s|
  {
    if s == [] then [] else [s[|s| - 1]] + Reversed(s[..|s| - 1])
  }

  /** Follows parent links from node `i` and reverses them. */
  method Reconstruct(nodes: seq<Node>, i: nat) returns (path: seq<Pos>)
    requires i < |nodes| && ParentsBefore(nodes)
    ensures path == Chain(nodes, i)
  {
    var rev: seq<Pos> := [];
    var cur: int := i;
    while cur >= 0
      invariant cur < |nodes|
      invariant cur >= 0 ==> Chain(nodes, cur) + Reversed(rev) == Chain(nodes, i)
      invariant cur < 0 ==> Reversed(rev) == Chain(nodes, i)
      decreases cur + 1
    {
      var n := nodes[cur];
      assert (rev + [n.pos])[..|rev|] == rev;
      assert Reversed(rev + [n.pos]) == [n.pos] + Reversed(rev);
      if n.parent >= 0 {
        assert Chain(nodes, cur) == Chain(nodes, n.parent) + [n.pos];
      }
      rev := rev + [n.pos];
      cur := n.parent;
    }
    path := Reversed(rev);
  }

  /** The `for ... else` scan of the open list: is `q` already open with cost at most `g`? */
  method HasBetterEntry(nodes: seq<Node>, open: set<nat>, q: Pos, g: int) returns (found: bool)
    requires forall k :: k in open ==> k < |nodes|
    ensures found <==> HasEntry(nodes, open, q, g)
  {
    found := false;
    var rest := open;
    while rest != {}
      invariant rest <= open
      invariant found <==> HasEntry(nodes, open - rest, q, g)
      decreases rest
    {
      var k :| k in rest;
      if nodes[k].pos == q && nodes[k].g <= g {
        found := true;
        assert k in open - (rest - {k});
        rest := {};
        break;
      }
      rest := rest - {k};
    }
    assert found ==> HasEntry(nodes, open, q, g);
    assert !found ==> rest == {};
  }

  /** `nodes` extends `nodes0`: the arena only grows. */
  ghost predicate Extends(nodes: seq<Node>, nodes0: seq<Node>) {
    |nodes| >= |nodes0| && forall k :: 0 <= k < |nodes0| ==> nodes[k] == nodes0[k]
  }

  /** Every cell of `cells` is covered at the cost recorded when it was closed. */
  ghost predicate AllCovered(grid: array2<Tile>, nodes: seq<Node>, open: set<nat>, closed: set<Pos>,
                             closeG: map<Pos, nat>, cells: set<Pos>)
    reads grid
  {
    forall c :: c in cells ==> c in closeG && Covered(grid, nodes, open, closed, c, closeG[c])
  }

  /** An entry still open on a closed cell costs at least what closed that cell. */
  ghost predicate StaleCosts(nodes: seq<Node>, open: set<nat>, closed: set<Pos>, closeG: map<Pos, nat>) {
    forall k :: k in open && k < |nodes| && nodes[k].pos in closed && nodes[k].pos in closeG ==>
      nodes[k].g >= closeG[nodes[k].pos]
  }

  /** The loop invariant of the search. */
  ghost predicate SearchInv(grid: array2<Tile>, start: Pos, end: Pos, nodes: seq<Node>, open: set<nat>,
                            closed: set<Pos>, closeG: map<Pos, nat>, closeT: map<Pos, nat>)
    reads grid
  {
    && WellLinked(grid, start, end, nodes)
    && (forall k :: k in open ==> k < |nodes|)
    && (closed == {} ==> open == {0} && |nodes| == 1)
    && (closed != {} ==> start in closed && 0 !in open)
    && end !in closed
    && closed <= Cells(grid) + {start}
    && Ordered(nodes, closed, closeT)
    && (forall c :: c in closeT ==> closeT[c] < |closed|)
    && closeG.Keys == closed
    && AllCovered(grid, nodes, open, closed, closeG, closed)
    && StaleCosts(nodes, open, closed, closeG)
  }

  lemma HasEntryGrows(nodes: seq<Node>, open: set<nat>, nodes': seq<Node>, open': set<nat>, q: Pos, bound: int)
    requires Extends(nodes', nodes) && open <= open'
    requires HasEntry(nodes, open, q, bound)
    ensures HasEntry(nodes', open', q, bound)
  {
    var k :| k in open && k < |nodes| && nodes[k].pos == q && nodes[k].g <= bound;
    assert k in open' && nodes'[k] == nodes[k];
  }

  lemma AllCoveredGrows(grid: array2<Tile>, nodes: seq<Node>, open: set<nat>, nodes': seq<Node>, open': set<nat>,
                        closed: set<Pos>, closeG: map<Pos, nat>, cells: set<Pos>)
    requires Extends(nodes', nodes) && open <= open'
    requires AllCovered(grid, nodes, open, closed, closeG, cells)
    ensures AllCovered(grid, nodes', open', closed, closeG, cells)
  {
    forall c | c in cells ensures c in closeG && Covered(grid, nodes', open', closed, c, closeG[c]) {
      assert Covered(grid, nodes, open, closed, c, closeG[c]);
      forall q | Adjacent(c, q) && Open(grid, q) && q !in closed ensures HasEntry(nodes', open', q, closeG[c] + 1) {
        HasEntryGrows(nodes, open, nodes', open', q, closeG[c] + 1);
      }
    }
  }

  /**
   * Popping entry `cur` and closing its cell keeps every previously closed
   * cell covered: a witness entry that was popped sat on the cell now closed.
   */
  lemma PopKeepsCovered(grid: array2<Tile>, nodes: seq<Node>, open0: set<nat>, cur: nat,
                        closed0: set<Pos>, closeG: map<Pos, nat>)
    requires cur in open0 && forall k :: k in open0 ==> k < |nodes|
    requires AllCovered(grid, nodes, open0, closed0, closeG, closed0)
    ensures AllCovered(grid, nodes, open0 - {cur}, closed0 + {nodes[cur].pos}, closeG, closed0)
  {
    var closed := closed0 + {nodes[cur].pos};
    forall c | c in closed0 ensures c in closeG && Covered(grid, nodes, open0 - {cur}, closed, c, closeG[c]) {
      assert Covered(grid, nodes, open0, closed0, c, closeG[c]);
      forall q | Adjacent(c, q) && Open(grid, q) && q !in closed ensures HasEntry(nodes, open0 - {cur}, q, closeG[c] + 1) {
        var k :| k in open0 && k < |nodes| && nodes[k].pos == q && nodes[k].g <= closeG[c] + 1;
        assert k != cur;
      }
    }
  }

  /** Pushing a neighbour of a closed node keeps the arena linked and every earlier coverage fact. */
  lemma PushKeeps(grid: array2<Tile>, start: Pos, end: Pos, nodes: seq<Node>, open: set<nat>, cur: nat, q: Pos,
                  closed: set<Pos>, closeG: map<Pos, nat>, closeT: map<Pos, nat>, cells: set<Pos>,
                  seen: seq<Pos>, done: nat, bound: int)
    requires WellLinked(grid, start, end, nodes) && cur < |nodes|
    requires Adjacent(nodes[cur].pos, q) && Open(grid, q) && q !in closed && nodes[cur].pos in closed
    requires Ordered(nodes, closed, closeT)
    requires AllCovered(grid, nodes, open, closed, closeG, cells)
    requires done <= |seen|
    requires forall j :: 0 <= j < done ==> seen[j] in closed || HasEntry(nodes, open, seen[j], bound)
    ensures var nodes' := nodes + [Node(q, nodes[cur].g + 1, Heuristic(q, end), cur)];
      var open' := open + {|nodes|};
      && WellLinked(grid, start, end, nodes') && Extends(nodes', nodes)
      && Ordered(nodes', closed, closeT)
      && AllCovered(grid, nodes', open', closed, closeG, cells)
      && forall j :: 0 <= j < done ==> seen[j] in closed || HasEntry(nodes', open', seen[j], bound)
  {
    var nodes' := nodes + [Node(q, nodes[cur].g + 1, Heuristic(q, end), cur)];
    var open' := open + {|nodes|};
    assert Extends(nodes', nodes);
    forall i | 0 < i < |nodes'| ensures Linked(grid, end, nodes', i) {
      if i < |nodes| {
        assert Linked(grid, end, nodes, i);
      }
    }
    forall i | 0 < i < |nodes'| ensures ClosedBefore(nodes', closeT, i) {
      if i < |nodes| {
        assert Linked(grid, end, nodes, i) && ClosedBefore(nodes, closeT, i);
        assert nodes'[i] == nodes[i] && nodes'[nodes[i].parent] == nodes[nodes[i].parent];
      }
    }
    AllCoveredGrows(grid, nodes, open, nodes', open', closed, closeG, cells);
    forall j | 0 <= j < done && seen[j] !in closed ensures HasEntry(nodes', open', seen[j], bound) {
      HasEntryGrows(nodes, open, nodes', open', seen[j], bound);
    }
  }

  /** Closing the popped cell sets up everything the neighbour loop needs. */
  lemma PrepareExpand(grid: array2<Tile>, start: Pos, end: Pos, nodes: seq<Node>, open0: set<nat>,
                      closed0: set<Pos>, closeG0: map<Pos, nat>, closeT0: map<Pos, nat>,
                      cur: nat, closeG: map<Pos, nat>, closeT: map<Pos, nat>)
    requires SearchInv(grid, start, end, nodes, open0, closed0, closeG0, closeT0)
    requires cur in open0
    requires nodes[cur].pos in closed0 ==> closeG == closeG0 && closeT == closeT0
    requires nodes[cur].pos !in closed0 ==>
      closeG == closeG0[nodes[cur].pos := nodes[cur].g] && closeT == closeT0[nodes[cur].pos := |closed0|]
    ensures forall k :: k in open0 - {cur} ==> 0 < k < |nodes|
    ensures nodes[cur].pos in closeG
    ensures nodes[cur].pos !in closed0 ==> closeG[nodes[cur].pos] == nodes[cur].g
    ensures nodes[cur].pos in closed0 ==> nodes[cur].g >= closeG[nodes[cur].pos]
    ensures Ordered(nodes, closed0 + {nodes[cur].pos}, closeT)
    ensures forall c :: c in closeT ==> closeT[c] < |closed0 + {nodes[cur].pos}|
    ensures AllCovered(grid, nodes, open0 - {cur}, closed0 + {nodes[cur].pos}, closeG, closed0)
  {
    OrderedAfterClose(nodes, closed0, closeT0, nodes[cur].pos, closeT);
    CoveredAfterClose(grid, nodes, open0, cur, closed0, closeG0, closeG);
  }

  /** Stamping a newly closed cell with the next closing time keeps the closing order. */
  lemma OrderedAfterClose(nodes: seq<Node>, closed0: set<Pos>, closeT0: map<Pos, nat>, p: Pos, closeT: map<Pos, nat>)
    requires Ordered(nodes, closed0, closeT0)
    requires forall c :: c in closeT0 ==> closeT0[c] < |closed0|
    requires p in closed0 ==> closeT == closeT0
    requires p !in closed0 ==> closeT == closeT0[p := |closed0|]
    ensures Ordered(nodes, closed0 + {p}, closeT)
    ensures forall c :: c in closeT ==> closeT[c] < |closed0 + {p}|
  {
    forall i | 0 < i < |nodes| ensures ClosedBefore(nodes, closeT, i) {
      assert ClosedBefore(nodes, closeT0, i);
      if 0 <= nodes[i].parent < |nodes| && p !in closed0 && nodes[i].pos == p {
        assert closeT0[nodes[nodes[i].parent].pos] < |closed0|;
      }
    }
  }

  /** Popping an entry and closing its cell keeps every earlier closed cell covered. */
  lemma CoveredAfterClose(grid: array2<Tile>, nodes: seq<Node>, open0: set<nat>, cur: nat,
                          closed0: set<Pos>, closeG0: map<Pos, nat>, closeG: map<Pos, nat>)
    requires cur in open0 && forall k :: k in open0 ==> k < |nodes|
    requires AllCovered(grid, nodes, open0, closed0, closeG0, closed0)
    requires forall c :: c in closed0 && c in closeG0 ==> c in closeG && closeG[c] == closeG0[c]
    ensures AllCovered(grid, nodes, open0 - {cur}, closed0 + {nodes[cur].pos}, closeG, closed0)
  {
    assert AllCovered(grid, nodes, open0, closed0, closeG, closed0) by {
      forall c | c in closed0 ensures c in closeG && Covered(grid, nodes, open0, closed0, c, closeG[c]) {
        assert Covered(grid, nodes, open0, closed0, c, closeG0[c]);
      }
    }
    PopKeepsCovered(grid, nodes, open0, cur, closed0, closeG);
  }

  /**
   * What the neighbour loop keeps while it runs over the popped node's
   * neighbours: the arena extends the one it started from, new open entries
   * sit on cells not closed, and every neighbour handled so far is closed or
   * open at cost at most `bound`.
   */
  ghost predicate ExpandInv(grid: array2<Tile>, start: Pos, end: Pos, nodes0: seq<Node>, open1: set<nat>,
                            closed: set<Pos>, closeG: map<Pos, nat>, closeT: map<Pos, nat>, cells: set<Pos>,
                            stale: bool, bound: int, nodes: seq<Node>, open: set<nat>, seen: seq<Pos>, done: nat)
    reads grid
  {
    && WellLinked(grid, start, end, nodes) && Extends(nodes, nodes0)
    && (forall k :: k in open ==> 0 < k < |nodes|)
    && open1 <= open
    && (forall k :: k in open && k !in open1 ==> k >= |nodes0| && nodes[k].pos !in closed)
    && (stale ==> nodes == nodes0 && open == open1)
    && Ordered(nodes, closed, closeT)
    && AllCovered(grid, nodes, open, closed, closeG, cells)
    && done <= |seen|
    && (forall j :: 0 <= j < done ==> seen[j] in closed || HasEntry(nodes, open, seen[j], bound))
  }

  /**
   * One pass of the neighbour loop of `find_path`: skip `q` if it is closed
   * or already open at no greater cost, otherwise push it with the popped
   * node as its parent.
   */
  method ConsiderNeighbor(grid: array2<Tile>, start: Pos, end: Pos, nodes: seq<Node>, open: set<nat>,
                          closed: set<Pos>, cur: nat, q: Pos,
                          ghost nodes0: seq<Node>, ghost open1: set<nat>, ghost closeG: map<Pos, nat>,
                          ghost closeT: map<Pos, nat>, ghost cells: set<Pos>, ghost stale: bool,
                          ghost bound: int, ghost seen: seq<Pos>, ghost done: nat)
    returns (nodes': seq<Node>, open': set<nat>)
    requires ExpandInv(grid, start, end, nodes0, open1, closed, closeG, closeT, cells, stale, bound, nodes, open, seen, done)
    requires done < |seen| && q == seen[done]
    requires cur < |nodes0| && Adjacent(nodes0[cur].pos, q) && Open(grid, q) && nodes0[cur].pos in closed
    requires bound <= nodes0[cur].g + 1 && (!stale ==> bound == nodes0[cur].g + 1)
    requires stale ==> q in closed || HasEntry(nodes0, open1, q, bound)
    ensures ExpandInv(grid, start, end, nodes0, open1, closed, closeG, closeT, cells, stale, bound, nodes', open', seen, done + 1)
  {
    nodes', open' := nodes, open;
    assert nodes[cur] == nodes0[cur];
    if q !in closed {
      var g := nodes[cur].g + 1;
      var h := Heuristic(q, end);
      var better := HasBetterEntry(nodes, open, q, g);
      if !better {
        nodes' := nodes + [Node(q, g, h, cur)];
        open' := open + {|nodes|};
        PushKeeps(grid, start, end, nodes, open, cur, q, closed, closeG, closeT, cells, seen, done, bound);
        assert HasEntry(nodes', open', q, bound) by {
          assert |nodes| in open' && nodes'[|nodes|].pos == q;
        }
        forall k | 0 <= k < |nodes0| ensures nodes'[k] == nodes0[k] {
          assert nodes'[k] == nodes[k];
        }
        forall k | k in open' && k !in open1 ensures k >= |nodes0| && nodes'[k].pos !in closed {
          if k in open {
            assert nodes'[k] == nodes[k];
          }
        }
      }
    }
  }

  /**
   * The `for neighbor_pos in get_neighbors(...)` loop of `find_path`. When
   * the popped entry is stale (its cell was closed before), it pushes nothing.
   */
  method ExpandNeighbors(grid: array2<Tile>, start: Pos, end: Pos, nodes0: seq<Node>, open1: set<nat>,
                         closed: set<Pos>, cur: nat, neighbors: seq<Pos>,
                         ghost closed0: set<Pos>, ghost closeG: map<Pos, nat>, ghost closeT: map<Pos, nat>)
    returns (nodes: seq<Node>, open: set<nat>)
    requires WellLinked(grid, start, end, nodes0) && cur < |nodes0|
    requires neighbors == Neighbors(grid, nodes0[cur].pos)
    requires forall k :: k in open1 ==> 0 < k < |nodes0|
    requires closed == closed0 + {nodes0[cur].pos}
    requires nodes0[cur].pos in closeG
    requires nodes0[cur].pos !in closed0 ==> closeG[nodes0[cur].pos] == nodes0[cur].g
    requires nodes0[cur].pos in closed0 ==> nodes0[cur].g >= closeG[nodes0[cur].pos]
    requires Ordered(nodes0, closed, closeT)
    requires AllCovered(grid, nodes0, open1, closed, closeG, closed0)
    ensures WellLinked(grid, start, end, nodes) && Extends(nodes, nodes0)
    ensures forall k :: k in open ==> 0 < k < |nodes|
    ensures open1 <= open
    ensures forall k :: k in open && k !in open1 ==> k >= |nodes0| && nodes[k].pos !in closed
    ensures nodes0[cur].pos in closed0 ==> nodes == nodes0 && open == open1
    ensures Ordered(nodes, closed, closeT)
    ensures AllCovered(grid, nodes, open, closed, closeG, closed)
  {
    ghost var p := nodes0[cur].pos;
    ghost var stale := p in closed0;
    ghost var bound := closeG[p] + 1;
    NeighborsSpec(grid, p);
    assert stale ==> Covered(grid, nodes0, open1, closed, p, closeG[p]);
    nodes, open := nodes0, open1;
    var j := 0;
    while j < |neighbors|
      invariant 0 <= j <= |neighbors|
      invariant ExpandInv(grid, start, end, nodes0, open1, closed, closeG, closeT, closed0, stale, bound,
                          nodes, open, neighbors, j)
    {
      var q := neighbors[j];
      nodes, open := ConsiderNeighbor(grid, start, end, nodes, open, closed, cur, q,
                                      nodes0, open1, closeG, closeT, closed0, stale, bound, neighbors, j);
      j := j + 1;
    }
    assert Covered(grid, nodes, open, closed, p, closeG[p]) by {
      forall q | Adjacent(p, q) && Open(grid, q) ensures q in closed || HasEntry(nodes, open, q, bound) {
        var jj :| 0 <= jj < |neighbors| && neighbors[jj] == q;
      }
    }
  }

  /** Every arena entry lies on the grid, except possibly the start entry. */
  lemma PoppedInUniverse(grid: array2<Tile>, start: Pos, end: Pos, nodes: seq<Node>, i: nat)
    requires WellLinked(grid, start, end, nodes) && i < |nodes|
    ensures nodes[i].pos in Cells(grid) + {start}
  {
    if i > 0 {
      assert Linked(grid, end, nodes, i);
      InCells(grid, nodes[i].pos);
    }
  }

  /**
   * Closing a cell at the minimum f-cost: any other open entry on that cell
   * has the same heuristic, so its cost is at least the closing cost.
   */
  lemma StaleCostsKept(grid: array2<Tile>, start: Pos, end: Pos,
                       nodes0: seq<Node>, open0: set<nat>, closed0: set<Pos>, closeG0: map<Pos, nat>,
                       cur: nat, nodes: seq<Node>, open: set<nat>, closed: set<Pos>, closeG: map<Pos, nat>)
    requires WellLinked(grid, start, end, nodes0)
    requires forall k :: k in open0 ==> k < |nodes0|
    requires closed0 == {} ==> open0 == {0}
    requires closed0 != {} ==> 0 !in open0
    requires StaleCosts(nodes0, open0, closed0, closeG0)
    requires cur in open0 && forall k :: k in open0 ==> FCost(nodes0[cur]) <= FCost(nodes0[k])
    requires closed == closed0 + {nodes0[cur].pos}
    requires nodes0[cur].pos in closed0 ==> closeG == closeG0
    requires nodes0[cur].pos !in closed0 ==> closeG == closeG0[nodes0[cur].pos := nodes0[cur].g]
    requires Extends(nodes, nodes0) && forall k :: k in open ==> k < |nodes|
    requires forall k :: k in open && k !in open0 - {cur} ==> k >= |nodes0| && nodes[k].pos !in closed
    ensures StaleCosts(nodes, open, closed, closeG)
  {
    var p := nodes0[cur].pos;
    forall k | k in open && k < |nodes| && nodes[k].pos in closed && nodes[k].pos in closeG
      ensures nodes[k].g >= closeG[nodes[k].pos]
    {
      assert k in open0 && k < |nodes0| && nodes[k] == nodes0[k];
      if nodes[k].pos == p && p !in closed0 {
        assert FCost(nodes0[cur]) <= FCost(nodes0[k]);
        assert cur > 0 && k > 0;
        assert Linked(grid, end, nodes0, cur) && Linked(grid, end, nodes0, k);
      } else {
        assert nodes0[k].pos in closed0;
      }
    }
  }

  /**
   * One pop-and-expand step keeps the search invariant; it either closes a
   * new cell or, for a stale entry, only shrinks the open set.
   */
  lemma StepKeepsInv(grid: array2<Tile>, start: Pos, end: Pos,
                     nodes0: seq<Node>, open0: set<nat>, closed0: set<Pos>, closeG0: map<Pos, nat>, closeT0: map<Pos, nat>,
                     cur: nat, nodes: seq<Node>, open: set<nat>, closed: set<Pos>, closeG: map<Pos, nat>, closeT: map<Pos, nat>)
    requires SearchInv(grid, start, end, nodes0, open0, closed0, closeG0, closeT0)
    requires cur in open0 && forall k :: k in open0 ==> FCost(nodes0[cur]) <= FCost(nodes0[k])
    requires nodes0[cur].pos != end
    requires closed == closed0 + {nodes0[cur].pos}
    requires nodes0[cur].pos in closed0 ==> closeG == closeG0 && closeT == closeT0
    requires nodes0[cur].pos !in closed0 ==>
      closeG == closeG0[nodes0[cur].pos := nodes0[cur].g] && closeT == closeT0[nodes0[cur].pos := |closed0|]
    requires WellLinked(grid, start, end, nodes) && Extends(nodes, nodes0)
    requires forall k :: k in open ==> 0 < k < |nodes|
    requires open0 - {cur} <= open
    requires forall k :: k in open && k !in open0 - {cur} ==> k >= |nodes0| && nodes[k].pos !in closed
    requires Ordered(nodes, closed, closeT)
    requires forall c :: c in closeT ==> closeT[c] < |closed|
    requires AllCovered(grid, nodes, open, closed, closeG, closed)
    ensures SearchInv(grid, start, end, nodes, open, closed, closeG, closeT)
  {
    PoppedInUniverse(grid, start, end, nodes0, cur);
    StaleCostsKept(grid, start, end, nodes0, open0, closed0, closeG0, cur, nodes, open, closed, closeG);
  }

  /**
   * The body of the search loop after the goal test: close the popped cell
   * and push its neighbours. A stale pop (its cell already closed) changes
   * nothing else.
   */
  method ExpandStep(grid: array2<Tile>, width: int, height: int, start: Pos, end: Pos,
                    nodes0: seq<Node>, ghost open0: set<nat>, open1: set<nat>, closed0: set<Pos>, cur: nat,
                    ghost closeG0: map<Pos, nat>, ghost closeT0: map<Pos, nat>)
    returns (nodes: seq<Node>, open: set<nat>, closed: set<Pos>, ghost closeG: map<Pos, nat>, ghost closeT: map<Pos, nat>)
    requires width == grid.Length1 && height == grid.Length0
    requires SearchInv(grid, start, end, nodes0, open0, closed0, closeG0, closeT0)
    requires cur in open0 && forall k :: k in open0 ==> FCost(nodes0[cur]) <= FCost(nodes0[k])
    requires open1 == open0 - {cur} && nodes0[cur].pos != end
    ensures SearchInv(grid, start, end, nodes, open, closed, closeG, closeT)
    ensures closed == closed0 + {nodes0[cur].pos}
    ensures nodes0[cur].pos in closed0 ==> closed == closed0 && open == open1
    ensures nodes0[cur].pos !in closed0 ==> closed0 < closed <= Cells(grid) + {start}
  {
    var current := nodes0[cur];
    ghost var p := current.pos;
    closeG, closeT := closeG0, closeT0;
    if p !in closed0 {
      closeG := closeG0[p := current.g];
      closeT := closeT0[p := |closed0|];
    }
    closed := closed0 + {current.pos};
    PrepareExpand(grid, start, end, nodes0, open0, closed0, closeG0, closeT0, cur, closeG, closeT);
    var neighbors := GetNeighbors(current.pos, grid, width, height);
    nodes, open := ExpandNeighbors(grid, start, end, nodes0, open1, closed, cur, neighbors, closed0, closeG, closeT);
    StepKeepsInv(grid, start, end, nodes0, open0, closed0, closeG0, closeT0, cur, nodes, open, closed, closeG, closeT);
  }

  /** Closing a new cell of the universe leaves fewer cells unclosed. */
  lemma FewerUnclosed<T>(universe: set<T>, closed0: set<T>, closed: set<T>)
    requires closed0 < closed <= universe
    ensures universe - closed < universe - closed0
  {
    var x :| x in closed && x !in closed0;
    assert x in universe - closed0;
  }

  /**
   * The search loop of `find_path` (backend/pathfinding.py:37-47, 55-71):
   * pops a minimum-f entry until it reaches the goal or the open set runs
   * out. `goal` is the arena index of the goal entry, or -1.
   */
  method Search(start: Pos, end: Pos, grid: array2<Tile>, width: int, height: int)
    returns (nodes: seq<Node>, goal: int,
             ghost open: set<nat>, ghost closed: set<Pos>, ghost closeG: map<Pos, nat>, ghost closeT: map<Pos, nat>)
    requires width == grid.Length1 && height == grid.Length0
    ensures SearchInv(grid, start, end, nodes, open, closed, closeG, closeT)
    ensures goal >= 0 ==> goal in open && nodes[goal].pos == end
    ensures goal < 0 ==> open == {}
  {
    nodes := [Node(start, 0, 0, -1)];
    var pending: set<nat> := {0};
    var closedSet: set<Pos> := {};
    closeG, closeT := map[], map[];
    ghost var universe := Cells(grid) + {start};
    InitialInv(grid, start, end);
    while pending != {}
      invariant SearchInv(grid, start, end, nodes, pending, closedSet, closeG, closeT)
      decreases universe - closedSet, pending
    {
      ghost var open0, closed0 := pending, closedSet;
      MinEntryExists(nodes, pending);
      var cur :| cur in pending && forall k :: k in pending ==> FCost(nodes[cur]) <= FCost(nodes[k]);
      var rest := pending - {cur};
      if nodes[cur].pos == end {
        goal, open, closed := cur, open0, closedSet;
        return;
      }
      ghost var p := nodes[cur].pos;
      nodes, pending, closedSet, closeG, closeT :=
        ExpandStep(grid, width, height, start, end, nodes, open0, rest, closedSet, cur, closeG, closeT);
      if p !in closed0 {
        FewerUnclosed(universe, closed0, closedSet);
      }
    }
    goal, open, closed := -1, {}, closedSet;
  }

  /**
   * `find_path`: the start-to-end path, or `[]` when the open set empties.
   * A returned path is a walk over open cells without repeated cells, and
   * `[]` comes back exactly when no such walk exists. The grid is only read.
   */
  method FindPath(start: Pos, end: Pos, grid: array2<Tile>, width: int, height: int) returns (path: seq<Pos>)
    requires width == grid.Length1 && height == grid.Length0
    ensures path != [] ==> IsWalk(grid, path) && path[0] == start && path[|path| - 1] == end
    ensures path != [] ==> Distinct(path)
    ensures path == [] <==> !Reachable(grid, start, end)
    ensures start == end ==> path == [start]
    ensures end != start && !Open(grid, end) ==> path == []
  {
    var nodes, goal, open, closed, closeG, closeT := Search(start, end, grid, width, height);
    if goal >= 0 {
      FoundPath(grid, start, end, nodes, closed, closeG, closeT, open, goal);
      path := Reconstruct(nodes, goal);
    } else {
      path := [];
      NoPathLeft(grid, start, end, nodes, closed, closeG, closeT);
    }
  }

  /** The search starts with the start node alone in the open set and nothing closed. */
  lemma InitialInv(grid: array2<Tile>, start: Pos, end: Pos)
    ensures SearchInv(grid, start, end, [Node(start, 0, 0, -1)], {0}, {}, map[], map[])
  {
  }

  /** When the popped entry is the goal, its parent chain is the path the method promises. */
  lemma FoundPath(grid: array2<Tile>, start: Pos, end: Pos, nodes: seq<Node>, closed: set<Pos>,
                  closeG: map<Pos, nat>, closeT: map<Pos, nat>, open0: set<nat>, cur: nat)
    requires SearchInv(grid, start, end, nodes, open0, closed, closeG, closeT)
    requires cur in open0 && nodes[cur].pos == end
    ensures ParentsBefore(nodes)
    ensures var c := Chain(nodes, cur);
      && IsWalk(grid, c) && c[0] == start && c[|c| - 1] == end && Distinct(c)
      && Reachable(grid, start, end)
      && (start == end ==> c == [start])
      && (end != start ==> Open(grid, end))
  {
    ChainIsWalk(grid, start, end, nodes, cur);
    assert forall j :: 0 < j < |nodes| ==> nodes[j].parent >= 0 by {
      forall j | 0 < j < |nodes| ensures nodes[j].parent >= 0 {
        assert Linked(grid, end, nodes, j);
      }
    }
    ChainIsDistinct(nodes, closed, closeT, cur);
    var c := Chain(nodes, cur);
    if start == end {
      assert cur == 0;
    }
    if end != start {
      assert |c| > 1;
      assert Open(grid, c[|c| - 1]);
    }
  }

  /**
   * When the open set is empty, the closed cells contain the start, exclude
   * the goal and are closed under taking neighbours: no walk reaches the goal.
   */
  lemma NoPathLeft(grid: array2<Tile>, start: Pos, end: Pos, nodes: seq<Node>, closed: set<Pos>,
                   closeG: map<Pos, nat>, closeT: map<Pos, nat>)
    requires SearchInv(grid, start, end, nodes, {}, closed, closeG, closeT)
    ensures !Reachable(grid, start, end)
    ensures start != end
  {
    assert start in closed;
    forall c, q | c in closed && Adjacent(c, q) && Open(grid, q) ensures q in closed {
      assert Covered(grid, nodes, {}, closed, c, closeG[c]);
    }
    forall w | IsWalk(grid, w) && w[0] == start ensures w[|w| - 1] != end {
      WalkStaysInside(grid, closed, w);
    }
  }
}
