/**
 * Expanding one popped cell: the neighbour loop as a fold of one
 * relaxation step, what the fold computes, and the search invariants it
 * keeps.
 */
module Relaxation {
  import opened Grid
  import opened Cost
  import opened Frontier
  import opened SearchInvariants

  /**
   * Moving from current onto n strictly lowers n's score: n is in the
   * grid, not an obstacle, and unscored or dearer than current's score
   * plus the step cost.
   */
  predicate Improvable(g: map<Coord, nat>, traffic: map<Coord, nat>, grid: seq<seq<int>>,
                       w: nat, h: nat, current: Coord, n: Coord): (b: bool)
    requires WellFormed(grid, w, h) && current in g
    ensures b ==> n != current
  {
    InBounds(n, w, h) && !IsObstacle(grid, w, h, n) &&
    (n !in g || g[current] + StepCost(traffic, n) < g[n])
  }

  /**
   * One iteration of the neighbour loop for n: when the step through
   * current strictly lowers n's score, n gets that score and current as
   * predecessor, and a node for n whose g is current's score plus one
   * (without the traffic penalty) is queued under the next id; otherwise
   * nothing changes. The cell being expanded never changes its own score.
   */
  function RelaxStep(x: Expansion, n: Coord, traffic: map<Coord, nat>, grid: seq<seq<int>>,
                     w: nat, h: nat, current: Coord, goal: Coord): (y: Expansion)
    requires WellFormed(grid, w, h) && current in x.scores
    ensures current in y.scores && y.scores[current] == x.scores[current]
  {
    if Improvable(x.scores, traffic, grid, w, h, current, n) then
      Relaxed(x, current, n, x.scores[current] + StepCost(traffic, n), State(n, goal, x.scores[current] + 1))
    else x
  }

  lemma RelaxStepImproving(x: Expansion, n: Coord, traffic: map<Coord, nat>, grid: seq<seq<int>>,
                           w: nat, h: nat, current: Coord, goal: Coord)
    requires WellFormed(grid, w, h) && current in x.scores
    requires Improvable(x.scores, traffic, grid, w, h, current, n)
    ensures
      RelaxStep(x, n, traffic, grid, w, h, current, goal)
      == Relaxed(x, current, n, x.scores[current] + StepCost(traffic, n), State(n, goal, x.scores[current] + 1))
  {
  }

  lemma RelaxStepUnchanged(x: Expansion, n: Coord, traffic: map<Coord, nat>, grid: seq<seq<int>>,
                           w: nat, h: nat, current: Coord, goal: Coord)
    requires WellFormed(grid, w, h) && current in x.scores
    requires !Improvable(x.scores, traffic, grid, w, h, current, n)
    ensures RelaxStep(x, n, traffic, grid, w, h, current, goal) == x
  {
  }

  /** The neighbour loop over ps, in order, from x. */
  function RelaxAll(ps: seq<Coord>, x: Expansion, traffic: map<Coord, nat>, grid: seq<seq<int>>,
                    w: nat, h: nat, current: Coord, goal: Coord): (y: Expansion)
    requires WellFormed(grid, w, h) && current in x.scores
    ensures current in y.scores && y.scores[current] == x.scores[current]
  {
    if ps == [] then x
    else RelaxStep(RelaxAll(ps[..|ps| - 1], x, traffic, grid, w, h, current, goal), ps[|ps| - 1],
                   traffic, grid, w, h, current, goal)
  }

  /** The state after expanding current: the neighbour loop over the neighbours of current. */
  function AfterExpand(x: Expansion, traffic: map<Coord, nat>, grid: seq<seq<int>>,
                       w: nat, h: nat, current: Coord, goal: Coord): Expansion
    requires WellFormed(grid, w, h) && current in x.scores
  {
    RelaxAll(Neighbors(current, w, h), x, traffic, grid, w, h, current, goal)
  }

  /** c has the same score and predecessor, or the same absence of them, in x and y. */
  ghost predicate Kept(x: Expansion, y: Expansion, c: Coord) {
    && (c in y.scores <==> c in x.scores) && (c in x.scores ==> y.scores[c] == x.scores[c])
    && (c in y.preds <==> c in x.preds) && (c in x.preds ==> y.preds[c] == x.preds[c])
  }

  /** In y, c has the score through current, from its score in x, and current as predecessor. */
  ghost predicate ThroughCurrent(x: Expansion, y: Expansion, traffic: map<Coord, nat>, current: Coord, c: Coord)
    requires current in x.scores
  {
    && c in y.scores && y.scores[c] == x.scores[current] + StepCost(traffic, c)
    && c in y.preds && y.preds[c] == current
  }

  /** The last cell of a sequence of distinct cells is not in its prefix. */
  lemma DistinctLast(ps: seq<Coord>)
    requires |ps| > 0 && Distinct(ps)
    ensures ps[|ps| - 1] !in ps[..|ps| - 1] && Distinct(ps[..|ps| - 1])
  {
    var p := ps[..|ps| - 1];
    assert forall i :: 0 <= i < |p| ==> p[i] == ps[i];
  }

  /**
   * Over distinct cells, relaxing ps gives each cell of ps that improves
   * on x the score through current and current as predecessor, and keeps
   * every other cell, whatever the order of ps.
   */
  lemma {:induction false} RelaxAllAt(ps: seq<Coord>, x: Expansion, traffic: map<Coord, nat>,
                                      grid: seq<seq<int>>, w: nat, h: nat, current: Coord,
                                      goal: Coord, c: Coord)
    requires WellFormed(grid, w, h) && current in x.scores && Distinct(ps)
    ensures
      if c in ps && Improvable(x.scores, traffic, grid, w, h, current, c)
      then ThroughCurrent(x, RelaxAll(ps, x, traffic, grid, w, h, current, goal), traffic, current, c)
      else Kept(x, RelaxAll(ps, x, traffic, grid, w, h, current, goal), c)
  {
    if ps != [] {
      var p, n := ps[..|ps| - 1], ps[|ps| - 1];
      assert ps == p + [n];
      DistinctLast(ps);
      RelaxAllAt(p, x, traffic, grid, w, h, current, goal, c);
    }
  }

  /**
   * The entries queued while relaxing the cells of ps from current, the
   * first under id, judged against the scores g before the loop: one per
   * improvable cell, whose node has g equal to current's score plus one.
   */
  function QueuedEntries(ps: seq<Coord>, g: map<Coord, nat>, traffic: map<Coord, nat>,
                         grid: seq<seq<int>>, w: nat, h: nat, current: Coord, goal: Coord,
                         id: nat): seq<Entry>
    requires WellFormed(grid, w, h) && current in g
  {
    if ps == [] then []
    else
      var n := ps[|ps| - 1];
      var r := QueuedEntries(ps[..|ps| - 1], g, traffic, grid, w, h, current, goal, id);
      if Improvable(g, traffic, grid, w, h, current, n) then
        var st := State(n, goal, g[current] + 1);
        r + [Entry(st.FScore(), id + |r|, st)]
      else r
  }

  /**
   * The queued entries, no more than the cells of ps, carry consecutive
   * ids from id and nodes with g equal to current's score plus one,
   * keyed by their f-scores.
   */
  lemma {:induction false} QueuedNumbered(ps: seq<Coord>, g: map<Coord, nat>, traffic: map<Coord, nat>,
                                          grid: seq<seq<int>>, w: nat, h: nat, current: Coord,
                                          goal: Coord, id: nat)
    requires WellFormed(grid, w, h) && current in g
    ensures |QueuedEntries(ps, g, traffic, grid, w, h, current, goal, id)| <= |ps|
    ensures Numbered(QueuedEntries(ps, g, traffic, grid, w, h, current, goal, id), id, goal, g[current] + 1)
  {
    if ps != [] {
      QueuedNumbered(ps[..|ps| - 1], g, traffic, grid, w, h, current, goal, id);
    }
  }

  /** The cells queued are exactly the improvable cells of ps. */
  lemma {:induction false} QueuedPositions(ps: seq<Coord>, g: map<Coord, nat>, traffic: map<Coord, nat>,
                                           grid: seq<seq<int>>, w: nat, h: nat, current: Coord,
                                           goal: Coord, id: nat)
    requires WellFormed(grid, w, h) && current in g
    ensures Positions(QueuedEntries(ps, g, traffic, grid, w, h, current, goal, id))
         == set c | c in ps && Improvable(g, traffic, grid, w, h, current, c)
  {
    if ps != [] {
      var p := ps[..|ps| - 1];
      var n := ps[|ps| - 1];
      assert ps == p + [n];
      QueuedPositions(p, g, traffic, grid, w, h, current, goal, id);
      var r := QueuedEntries(p, g, traffic, grid, w, h, current, goal, id);
      if Improvable(g, traffic, grid, w, h, current, n) {
        var st := State(n, goal, g[current] + 1);
        AppendPositions(r, Entry(st.FScore(), id + |r|, st));
      }
    }
  }

  /**
   * Over distinct cells, the loop appends to the open list exactly the
   * entries QueuedEntries lists against the scores before the loop, and
   * advances the id counter by their number.
   */
  lemma {:induction false} RelaxAllQueue(ps: seq<Coord>, x: Expansion, traffic: map<Coord, nat>,
                                         grid: seq<seq<int>>, w: nat, h: nat, current: Coord, goal: Coord)
    requires WellFormed(grid, w, h) && current in x.scores && Distinct(ps)
    ensures RelaxAll(ps, x, traffic, grid, w, h, current, goal).frontier
         == x.frontier + QueuedEntries(ps, x.scores, traffic, grid, w, h, current, goal, x.nextId)
    ensures RelaxAll(ps, x, traffic, grid, w, h, current, goal).nextId
         == x.nextId + |QueuedEntries(ps, x.scores, traffic, grid, w, h, current, goal, x.nextId)|
  {
    if ps != [] {
      var p, n := ps[..|ps| - 1], ps[|ps| - 1];
      DistinctLast(ps);
      RelaxAllQueue(p, x, traffic, grid, w, h, current, goal);
      // n is not in p, so its score before this step is the one it had before the loop
      RelaxAllAt(p, x, traffic, grid, w, h, current, goal, n);
      var q := QueuedEntries(p, x.scores, traffic, grid, w, h, current, goal, x.nextId);
      var y := RelaxAll(p, x, traffic, grid, w, h, current, goal);
      assert Improvable(y.scores, traffic, grid, w, h, current, n)
         <==> Improvable(x.scores, traffic, grid, w, h, current, n);
      var st := State(n, goal, x.scores[current] + 1);
      assert x.frontier + q + [Entry(st.FScore(), y.nextId, st)] == x.frontier + (q + [Entry(st.FScore(), y.nextId, st)]);
    }
  }

  /**
   * Expanding current, over its neighbours in the order left, right, up,
   * down: each neighbour that improves gets the score through current and
   * current as predecessor, every other cell is kept, and the open list
   * grows by one entry per improving neighbour, in that order, numbered
   * from the id counter.
   */
  lemma ExpandEffect(x: Expansion, traffic: map<Coord, nat>, grid: seq<seq<int>>,
                     w: nat, h: nat, current: Coord, goal: Coord)
    requires WellFormed(grid, w, h) && current in x.scores
    ensures forall c :: c in Neighbors(current, w, h) && Improvable(x.scores, traffic, grid, w, h, current, c) ==>
              ThroughCurrent(x, AfterExpand(x, traffic, grid, w, h, current, goal), traffic, current, c)
    ensures forall c :: !(c in Neighbors(current, w, h) && Improvable(x.scores, traffic, grid, w, h, current, c)) ==>
              Kept(x, AfterExpand(x, traffic, grid, w, h, current, goal), c)
    ensures AfterExpand(x, traffic, grid, w, h, current, goal).frontier
         == x.frontier + QueuedEntries(Neighbors(current, w, h), x.scores, traffic, grid, w, h, current, goal, x.nextId)
    ensures Numbered(QueuedEntries(Neighbors(current, w, h), x.scores, traffic, grid, w, h, current, goal, x.nextId),
                     x.nextId, goal, x.scores[current] + 1)
    ensures Positions(QueuedEntries(Neighbors(current, w, h), x.scores, traffic, grid, w, h, current, goal, x.nextId))
         == set c | c in Neighbors(current, w, h) && Improvable(x.scores, traffic, grid, w, h, current, c)
  {
    var ns := Neighbors(current, w, h);
    NeighborsDistinct(current, w, h);
    forall c
      ensures if c in ns && Improvable(x.scores, traffic, grid, w, h, current, c)
        then ThroughCurrent(x, RelaxAll(ns, x, traffic, grid, w, h, current, goal), traffic, current, c)
        else Kept(x, RelaxAll(ns, x, traffic, grid, w, h, current, goal), c)
    {
      RelaxAllAt(ns, x, traffic, grid, w, h, current, goal, c);
    }
    RelaxAllQueue(ns, x, traffic, grid, w, h, current, goal);
    QueuedNumbered(ns, x.scores, traffic, grid, w, h, current, goal, x.nextId);
    QueuedPositions(ns, x.scores, traffic, grid, w, h, current, goal, x.nextId);
  }
}
