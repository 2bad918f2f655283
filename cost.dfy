/** The search node, its heuristic and f-score, and the cost of a step. */
module Cost {
  import opened Grid

  function AbsDiff(a: nat, b: nat): nat {
    if a < b then b - a else a - b
  }

  /** Manhattan distance between two cells. */
  function Manhattan(a: Coord, b: Coord): (d: nat)
    ensures d == 0 <==> a == b
  {
    AbsDiff(a.x, b.x) + AbsDiff(a.y, b.y)
  }

  /** A search node: a position, the fixed goal and the cost so far. */
  datatype State = State(position: Coord, goal: Coord, g: nat) {

    /** Estimated remaining cost: the Manhattan distance to the goal. */
    function Heuristic(): (h: nat)
      ensures h == 0 <==> position == goal
    {
      Manhattan(position, goal)
    }

    /** Cost so far plus the estimate; equal to g exactly at the goal. */
    function FScore(): (f: nat)
      ensures f >= g
      ensures f == g <==> position == goal
    {
      g + Heuristic()
    }
  }

  /** The traffic penalty of a cell: its map entry, or 0 when absent. */
  function Traffic(traffic: map<Coord, nat>, c: Coord): nat {
    if c in traffic then traffic[c] else 0
  }

  /** The cost of moving onto c: one unit plus c's traffic penalty. */
  function StepCost(traffic: map<Coord, nat>, c: Coord): (s: nat)
    ensures s >= 1
    ensures s == 1 <==> Traffic(traffic, c) == 0
  {
    1 + Traffic(traffic, c)
  }

  /** The cost of walking p: the step cost of every cell after the first. */
  function PathCost(traffic: map<Coord, nat>, p: seq<Coord>): nat
  {
    if |p| <= 1 then 0 else PathCost(traffic, p[..|p| - 1]) + StepCost(traffic, p[|p| - 1])
  }

  /** One orthogonal step changes the distance to any cell by exactly one. */
  lemma ManhattanStep(a: Coord, b: Coord, t: Coord)
    requires Adjacent(a, b)
    ensures Manhattan(a, t) == Manhattan(b, t) + 1 || Manhattan(b, t) == Manhattan(a, t) + 1
  {
  }

  /**
   * The heuristic is consistent: the estimate at a never exceeds the cost
   * of stepping onto an adjacent b plus the estimate at b.
   */
  lemma HeuristicConsistent(traffic: map<Coord, nat>, a: Coord, b: Coord, goal: Coord, g: nat)
    requires Adjacent(a, b)
    ensures State(a, goal, g).Heuristic() <= StepCost(traffic, b) + State(b, goal, g).Heuristic()
  {
    ManhattanStep(a, b, goal);
  }

  /** A walk of adjacent cells takes at least as many steps as the Manhattan distance. */
  lemma {:induction false} StepsAtLeastManhattan(p: seq<Coord>)
    requires |p| > 0
    requires forall i :: 0 <= i < |p| - 1 ==> Adjacent(p[i], p[i + 1])
    ensures |p| - 1 >= Manhattan(p[0], p[|p| - 1])
  {
    if |p| > 1 {
      var q := p[..|p| - 1];
      StepsAtLeastManhattan(q);
      ManhattanStep(p[|p| - 2], p[|p| - 1], p[0]);
    }
  }

  /** Every step costs at least one, so a walk costs at least its number of steps. */
  lemma {:induction false} CostAtLeastSteps(traffic: map<Coord, nat>, p: seq<Coord>)
    ensures |p| > 0 ==> PathCost(traffic, p) >= |p| - 1
    ensures (forall i :: 0 < i < |p| ==> Traffic(traffic, p[i]) == 0) ==> PathCost(traffic, p) == if |p| == 0 then 0 else |p| - 1
  {
    if |p| > 1 {
      CostAtLeastSteps(traffic, p[..|p| - 1]);
    }
  }

  /**
   * Admissibility: the heuristic at the start of a walk never exceeds the
   * cost of the walk to its end.
   */
  lemma HeuristicAdmissible(traffic: map<Coord, nat>, p: seq<Coord>, g: nat)
    requires |p| > 0
    requires forall i :: 0 <= i < |p| - 1 ==> Adjacent(p[i], p[i + 1])
    ensures State(p[0], p[|p| - 1], g).Heuristic() <= PathCost(traffic, p)
  {
    StepsAtLeastManhattan(p);
    CostAtLeastSteps(traffic, p);
  }
}
