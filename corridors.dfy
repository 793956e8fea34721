/**
 * L-shaped corridors (backend/dungeon_generator.py:142-159): the cells
 * `_carve_corridor` turns into floor, and a walk through them from one end
 * to the other.
 */
module Corridors {
  import opened Values
  import opened Tiles
  import opened Pathfinding

  function Min(a: int, b: int): int { if a <= b then a else b }
  function Max(a: int, b: int): int { if a <= b then b else a }

  /** `p` lies on the straight horizontal or vertical segment from `s` to `t`. */
  predicate OnSegment(s: Pos, t: Pos, p: Pos) {
    (s.y == t.y && p.y == s.y && Min(s.x, t.x) <= p.x <= Max(s.x, t.x)) ||
    (s.x == t.x && p.x == s.x && Min(s.y, t.y) <= p.y <= Max(s.y, t.y))
  }

  /** Where the corridor turns: it runs along a row first when `horizontalFirst`, along a column otherwise. */
  function Corner(a: Pos, b: Pos, horizontalFirst: bool): Pos {
    if horizontalFirst then Pos(b.x, a.y) else Pos(a.x, b.y)
  }

  /** The cells of the corridor from `a` to `b`. */
  predicate InCorridor(a: Pos, b: Pos, horizontalFirst: bool, p: Pos) {
    var c := Corner(a, b, horizontalFirst);
    OnSegment(a, c, p) || OnSegment(c, b, p)
  }

  function Sign(n: int): int {
    if n > 0 then 1 else if n < 0 then -1 else 0
  }

  /** The cells from `s` to `t` along a row or a column, one step at a time. */
  function Line(s: Pos, t: Pos): seq<Pos>
    requires s.x == t.x || s.y == t.y
    decreases Abs(t.x - s.x) + Abs(t.y - s.y)
  {
    if s == t then [s]
    else [s] + Line(Pos(s.x + Sign(t.x - s.x), s.y + Sign(t.y - s.y)), t)
  }

  /** A line starts at `s`, ends at `t`, moves one orthogonal step at a time and stays on the segment. */
  lemma {:induction false} LineShape(s: Pos, t: Pos)
    requires s.x == t.x || s.y == t.y
    ensures var l := Line(s, t);
      && |l| >= 1 && l[0] == s && l[|l| - 1] == t
      && (forall j :: 0 < j < |l| ==> Adjacent(l[j - 1], l[j]))
      && (forall j :: 0 <= j < |l| ==> OnSegment(s, t, l[j]))
    decreases Abs(t.x - s.x) + Abs(t.y - s.y)
  {
    if s != t {
      var n := Pos(s.x + Sign(t.x - s.x), s.y + Sign(t.y - s.y));
      LineShape(n, t);
      var rest := Line(n, t);
      var l := Line(s, t);
      assert l == [s] + rest;
      forall j | 0 < j < |l| ensures Adjacent(l[j - 1], l[j]) {
        if j > 1 {
          assert l[j - 1] == rest[j - 2] && l[j] == rest[j - 1];
        }
      }
      forall j | 0 <= j < |l| ensures OnSegment(s, t, l[j]) {
        if j > 0 {
          assert l[j] == rest[j - 1];
          assert OnSegment(n, t, rest[j - 1]);
        }
      }
    }
  }

  /** A line passes through every cell of its segment. */
  lemma {:induction false} LineCovers(s: Pos, t: Pos)
    requires s.x == t.x || s.y == t.y
    ensures forall p :: OnSegment(s, t, p) ==> p in Line(s, t)
    decreases Abs(t.x - s.x) + Abs(t.y - s.y)
  {
    if s != t {
      var n := Pos(s.x + Sign(t.x - s.x), s.y + Sign(t.y - s.y));
      LineCovers(n, t);
      assert Line(s, t) == [s] + Line(n, t);
      forall p | OnSegment(s, t, p)
        ensures p in Line(s, t)
      {
        if p != s {
          assert OnSegment(n, t, p);
        }
      }
    }
  }

  /** The corridor as a walk: along the first leg to the corner, then along the second. */
  function LPath(a: Pos, b: Pos, horizontalFirst: bool): seq<Pos> {
    var c := Corner(a, b, horizontalFirst);
    Line(a, c) + Line(c, b)[1..]
  }

  /** The corridor's walk runs from `a` to `b` in orthogonal steps through corridor cells only. */
  lemma LPathShape(a: Pos, b: Pos, horizontalFirst: bool)
    ensures var w := LPath(a, b, horizontalFirst);
      && |w| >= 1 && w[0] == a && w[|w| - 1] == b
      && (forall j :: 0 < j < |w| ==> Adjacent(w[j - 1], w[j]))
      && (forall j :: 0 <= j < |w| ==> InCorridor(a, b, horizontalFirst, w[j]))
  {
    var c := Corner(a, b, horizontalFirst);
    LineShape(a, c);
    LineShape(c, b);
    var l1, l2 := Line(a, c), Line(c, b);
    var w := LPath(a, b, horizontalFirst);
    assert w == l1 + l2[1..];
    forall j | 0 < j < |w| ensures Adjacent(w[j - 1], w[j]) {
      if j < |l1| {
        assert w[j - 1] == l1[j - 1] && w[j] == l1[j];
      } else if j == |l1| {
        assert w[j - 1] == l1[|l1| - 1] == l2[0] && w[j] == l2[1];
      } else {
        assert w[j - 1] == l2[j - |l1|] && w[j] == l2[j - |l1| + 1];
      }
    }
    forall j | 0 <= j < |w| ensures InCorridor(a, b, horizontalFirst, w[j]) {
      if j < |l1| {
        assert w[j] == l1[j];
      } else {
        assert w[j] == l2[j - |l1| + 1];
      }
    }
    if |l2| == 1 {
      assert w[|w| - 1] == l1[|l1| - 1] == c == b;
    } else {
      assert w[|w| - 1] == l2[|l2| - 1];
    }
  }

  /** Once every corridor cell is floor, the far end is reachable from the near end over floor. */
  lemma CorridorConnects(grid: array2<Tile>, a: Pos, b: Pos, horizontalFirst: bool)
    requires forall p :: InCorridor(a, b, horizontalFirst, p) ==> Open(grid, p)
    ensures Reachable(grid, a, b)
  {
    LPathShape(a, b, horizontalFirst);
    var w := LPath(a, b, horizontalFirst);
    assert IsWalk(grid, w);
  }
}
