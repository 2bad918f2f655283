/** Cells of the planner's grid, their neighbours and obstacle test. */
module Grid {

  /** A cell position (x, y); both coordinates are non-negative. */
  datatype Coord = Coord(x: nat, y: nat)

  /** The cell code the search refuses to enter. */
  const OBSTACLE: int := 1

  predicate InBounds(c: Coord, w: nat, h: nat) {
    c.x < w && c.y < h
  }

  /** The cells in [0,w) x [0,h). */
  ghost function Box(w: nat, h: nat): set<Coord> {
    set x: nat, y: nat | x < w && y < h :: Coord(x, y)
  }

  lemma InBox(c: Coord, w: nat, h: nat)
    ensures c in Box(w, h) <==> InBounds(c, w, h)
  {
    if InBounds(c, w, h) {
      assert c == Coord(c.x, c.y);
    }
  }

  /** a and b differ by exactly 1 in exactly one coordinate. */
  predicate Adjacent(a: Coord, b: Coord) {
    (a.y == b.y && (a.x == b.x + 1 || b.x == a.x + 1)) ||
    (a.x == b.x && (a.y == b.y + 1 || b.y == a.y + 1))
  }

  /** The direction of the step c -> n: left 0, right 1, up 2, down 3. */
  function DirRank(c: Coord, n: Coord): (r: nat)
    requires Adjacent(c, n)
    ensures r < 4
  {
    if n.x + 1 == c.x then 0
    else if n.x == c.x + 1 then 1
    else if n.y + 1 == c.y then 2
    else 3
  }

  /**
   * The grid held as columns: grid[x][y] is the code of cell (x, y),
   * with w columns of h cells each.
   */
  predicate WellFormed(grid: seq<seq<int>>, w: nat, h: nat) {
    |grid| == w && forall x :: 0 <= x < w ==> |grid[x]| == h
  }

  predicate IsObstacle(grid: seq<seq<int>>, w: nat, h: nat, c: Coord)
    requires WellFormed(grid, w, h) && InBounds(c, w, h)
  {
    grid[c.x][c.y] == OBSTACLE
  }

  /**
   * The orthogonal neighbours of c that lie in the grid, in the order
   * left, right, up, down.
   */
  function Neighbors(c: Coord, w: nat, h: nat): (ns: seq<Coord>)
    ensures |ns| <= 4
    ensures forall n :: n in ns ==> Adjacent(c, n)
    ensures InBounds(c, w, h) ==> forall n :: n in ns ==> InBounds(n, w, h)
    ensures forall n :: InBounds(n, w, h) && Adjacent(c, n) ==> n in ns
    ensures forall i, j :: 0 <= i < j < |ns| ==> DirRank(c, ns[i]) < DirRank(c, ns[j])
  {
    var left := if c.x > 0 then [Coord(c.x - 1, c.y)] else [];
    var right := if c.x < w - 1 then [Coord(c.x + 1, c.y)] else [];
    var up := if c.y > 0 then [Coord(c.x, c.y - 1)] else [];
    var down := if c.y < h - 1 then [Coord(c.x, c.y + 1)] else [];
    left + right + up + down
  }

  /** No cell occurs twice in ps. */
  predicate Distinct(ps: seq<Coord>) {
    forall i, j :: 0 <= i < j < |ps| ==> ps[i] != ps[j]
  }

  /** No neighbour is listed twice. */
  lemma NeighborsDistinct(c: Coord, w: nat, h: nat)
    ensures Distinct(Neighbors(c, w, h))
  {
  }

  /**
   * p is a walk from s to t through the grid: consecutive cells are
   * adjacent and every cell after the first is in bounds and not an
   * obstacle (the first cell is never tested).
   */
  predicate IsRoute(p: seq<Coord>, s: Coord, t: Coord, grid: seq<seq<int>>, w: nat, h: nat)
    requires WellFormed(grid, w, h)
  {
    |p| > 0 && p[0] == s && p[|p| - 1] == t &&
    (forall i :: 0 <= i < |p| - 1 ==> Adjacent(p[i], p[i + 1])) &&
    (forall i :: 0 < i < |p| ==> InBounds(p[i], w, h) && !IsObstacle(grid, w, h, p[i]))
  }
}
