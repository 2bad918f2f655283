/**
 * The search invariants that one expansion keeps: each relaxation step
 * keeps them and lowers the termination measure or changes nothing.
 */
module ExpandInvariants {
  import opened Grid
  import opened Cost
  import opened SearchInvariants
  import opened Relaxation

  /** An improving relaxation step keeps the invariants. */
  lemma RelaxImprovingHeld(start: Coord, goal: Coord, traffic: map<Coord, nat>,
                           grid: seq<seq<int>>, w: nat, h: nat, step: nat,
                           current: Coord, x: Expansion, n: Coord)
    requires WellFormed(grid, w, h) && StepCost(traffic, n) <= step
    requires Held(start, goal, grid, w, h, step, current, x)
    requires current in x.scores && Adjacent(current, n)
    requires Improvable(x.scores, traffic, grid, w, h, current, n)
    ensures Held(start, goal, grid, w, h, step, current, RelaxStep(x, n, traffic, grid, w, h, current, goal))
  {
    RelaxStepImproving(x, n, traffic, grid, w, h, current, goal);
    RelaxedHeld(start, goal, traffic, grid, w, h, step, current, x, n);
  }

  /** One relaxation step keeps the invariants. */
  lemma RelaxStepHeld(start: Coord, goal: Coord, traffic: map<Coord, nat>,
                      grid: seq<seq<int>>, w: nat, h: nat, step: nat,
                      current: Coord, x: Expansion, n: Coord)
    requires WellFormed(grid, w, h) && StepBound(traffic, step)
    requires Held(start, goal, grid, w, h, step, current, x)
    requires current in x.scores && Adjacent(current, n)
    ensures Held(start, goal, grid, w, h, step, current, RelaxStep(x, n, traffic, grid, w, h, current, goal))
  {
    if Improvable(x.scores, traffic, grid, w, h, current, n) {
      assert StepCost(traffic, n) <= step;
      RelaxImprovingHeld(start, goal, traffic, grid, w, h, step, current, x, n);
    } else {
      RelaxStepUnchanged(x, n, traffic, grid, w, h, current, goal);
    }
  }

  /** Relaxing every cell of ps keeps the invariants. */
  lemma {:induction false} RelaxAllHeld(start: Coord, goal: Coord, traffic: map<Coord, nat>,
                                        grid: seq<seq<int>>, w: nat, h: nat, step: nat,
                                        current: Coord, ps: seq<Coord>, x: Expansion)
    requires WellFormed(grid, w, h) && StepBound(traffic, step)
    requires Held(start, goal, grid, w, h, step, current, x)
    requires current in x.scores
    requires forall n :: n in ps ==> Adjacent(current, n)
    ensures Held(start, goal, grid, w, h, step, current, RelaxAll(ps, x, traffic, grid, w, h, current, goal))
  {
    if ps != [] {
      var p, n := ps[..|ps| - 1], ps[|ps| - 1];
      assert n in ps;
      assert forall m :: m in p ==> m in ps;
      RelaxAllHeld(start, goal, traffic, grid, w, h, step, current, p, x);
      RelaxStepHeld(start, goal, traffic, grid, w, h, step, current,
                    RelaxAll(p, x, traffic, grid, w, h, current, goal), n);
    }
  }

  /** Lowering n's score to one step through current keeps the scores bounded and lowers the measure. */
  lemma ImprovingShrinks(traffic: map<Coord, nat>, grid: seq<seq<int>>, w: nat, h: nat, step: nat,
                         current: Coord, g: map<Coord, nat>, n: Coord, v: nat)
    requires WellFormed(grid, w, h) && StepCost(traffic, n) <= step
    requires Bounded(g, step, w, h)
    requires current in g && Adjacent(current, n)
    requires Improvable(g, traffic, grid, w, h, current, n)
    requires v == g[current] + StepCost(traffic, n)
    ensures Bounded(g[n := v], step, w, h)
    ensures Improves(g, g[n := v])
    ensures Remaining(g[n := v], w, h, Cap(step, w, h)) < Remaining(g, w, h, Cap(step, w, h))
  {
    RankAfterUpdate(g, step, current, n, v);
    BoundedByCap(g[n := v], step, w, h, n);
    RemainingShrinks(g, w, h, Cap(step, w, h), n, v);
    ImprovesUpdate(g, g, n, v);
  }

  /** An improving step keeps the scores bounded, scores n, and lowers the measure. */
  lemma ImprovingProgress(traffic: map<Coord, nat>, grid: seq<seq<int>>, w: nat, h: nat, step: nat,
                          current: Coord, goal: Coord, x: Expansion, n: Coord)
    requires WellFormed(grid, w, h) && StepCost(traffic, n) <= step
    requires Bounded(x.scores, step, w, h)
    requires current in x.scores && Adjacent(current, n)
    requires Improvable(x.scores, traffic, grid, w, h, current, n)
    ensures Bounded(RelaxStep(x, n, traffic, grid, w, h, current, goal).scores, step, w, h)
    ensures n in RelaxStep(x, n, traffic, grid, w, h, current, goal).scores
    ensures Progress(x, RelaxStep(x, n, traffic, grid, w, h, current, goal), w, h, Cap(step, w, h))
  {
    var v := x.scores[current] + StepCost(traffic, n);
    var y := RelaxStep(x, n, traffic, grid, w, h, current, goal);
    RelaxStepImproving(x, n, traffic, grid, w, h, current, goal);
    assert y.scores == x.scores[n := v];
    ImprovingShrinks(traffic, grid, w, h, step, current, x.scores, n, v);
  }

  /**
   * One relaxation step keeps the scores bounded, lowers n's score or
   * changes nothing, and leaves n, when in the grid, an obstacle or scored.
   */
  lemma RelaxStepBounded(traffic: map<Coord, nat>, grid: seq<seq<int>>, w: nat, h: nat, step: nat,
                         current: Coord, goal: Coord, x: Expansion, n: Coord)
    requires WellFormed(grid, w, h) && StepBound(traffic, step)
    requires Bounded(x.scores, step, w, h)
    requires current in x.scores && Adjacent(current, n)
    ensures Bounded(RelaxStep(x, n, traffic, grid, w, h, current, goal).scores, step, w, h)
    ensures Progress(x, RelaxStep(x, n, traffic, grid, w, h, current, goal), w, h, Cap(step, w, h))
    ensures InBounds(n, w, h) ==>
              IsObstacle(grid, w, h, n) || n in RelaxStep(x, n, traffic, grid, w, h, current, goal).scores
  {
    if Improvable(x.scores, traffic, grid, w, h, current, n) {
      assert StepCost(traffic, n) <= step;
      ImprovingProgress(traffic, grid, w, h, step, current, goal, x, n);
    } else {
      RelaxStepUnchanged(x, n, traffic, grid, w, h, current, goal);
    }
  }

  lemma ProgressTrans(x: Expansion, y: Expansion, z: Expansion, w: nat, h: nat, cap: nat)
    requires Progress(x, y, w, h, cap) && Progress(y, z, w, h, cap)
    ensures Progress(x, z, w, h, cap)
  {
    forall c | c in x.scores ensures c in z.scores && z.scores[c] <= x.scores[c] {
      assert c in y.scores;
    }
  }

  /**
   * Relaxing every cell of ps keeps the scores bounded, makes progress,
   * and leaves each cell of ps in the grid an obstacle or scored.
   */
  lemma {:induction false} RelaxAllProgress(traffic: map<Coord, nat>, grid: seq<seq<int>>,
                                            w: nat, h: nat, step: nat, current: Coord, goal: Coord,
                                            ps: seq<Coord>, x: Expansion)
    requires WellFormed(grid, w, h) && StepBound(traffic, step)
    requires Bounded(x.scores, step, w, h)
    requires current in x.scores
    requires forall n :: n in ps ==> Adjacent(current, n)
    ensures
      && Bounded(RelaxAll(ps, x, traffic, grid, w, h, current, goal).scores, step, w, h)
      && Progress(x, RelaxAll(ps, x, traffic, grid, w, h, current, goal), w, h, Cap(step, w, h))
      && forall n :: n in ps && InBounds(n, w, h) ==> IsObstacle(grid, w, h, n) || n in RelaxAll(ps, x, traffic, grid, w, h, current, goal).scores
  {
    if ps != [] {
      var p, n := ps[..|ps| - 1], ps[|ps| - 1];
      assert n in ps;
      assert forall m :: m in p ==> m in ps;
      RelaxAllProgress(traffic, grid, w, h, step, current, goal, p, x);
      var y' := RelaxAll(p, x, traffic, grid, w, h, current, goal);
      RelaxStepBounded(traffic, grid, w, h, step, current, goal, y', n);
      var y := RelaxStep(y', n, traffic, grid, w, h, current, goal);
      ProgressTrans(x, y', y, w, h, Cap(step, w, h));
      assert ps == p + [n];
    }
  }

  /**
   * Expanding current keeps the search invariants, closes current, and
   * either lowers some score or changes nothing.
   */
  lemma ExpandKeeps(start: Coord, goal: Coord, traffic: map<Coord, nat>,
                    grid: seq<seq<int>>, w: nat, h: nat, step: nat, current: Coord, x: Expansion)
    requires WellFormed(grid, w, h) && StepBound(traffic, step)
    requires SearchInv(start, goal, grid, w, h, x.frontier, x.scores, x.preds, step, x.nextId)
    requires ClosedExcept(x.scores, x.frontier, {current}, grid, w, h)
    requires current in x.scores
    ensures
      var y := AfterExpand(x, traffic, grid, w, h, current, goal);
      && SearchInv(start, goal, grid, w, h, y.frontier, y.scores, y.preds, step, y.nextId)
      && ClosedExcept(y.scores, y.frontier, {}, grid, w, h)
      && Progress(x, y, w, h, Cap(step, w, h))
  {
    var ns := Neighbors(current, w, h);
    RelaxAllHeld(start, goal, traffic, grid, w, h, step, current, ns, x);
    RelaxAllProgress(traffic, grid, w, h, step, current, goal, ns, x);
    ExpandCloses(grid, w, h, current, RelaxAll(ns, x, traffic, grid, w, h, current, goal));
  }

  /**
   * Once every neighbour of current is an obstacle or scored, current is
   * expanded and every scored cell is queued or expanded.
   */
  lemma ExpandCloses(grid: seq<seq<int>>, w: nat, h: nat, current: Coord, x: Expansion)
    requires WellFormed(grid, w, h)
    requires forall c :: c in x.scores ==> InBounds(c, w, h)
    requires current in x.scores
    requires ClosedExcept(x.scores, x.frontier, {current}, grid, w, h)
    requires forall n :: n in Neighbors(current, w, h) && InBounds(n, w, h) ==>
               IsObstacle(grid, w, h, n) || n in x.scores
    ensures ClosedExcept(x.scores, x.frontier, {}, grid, w, h)
  {
    assert Expanded(current, x.scores, grid, w, h);
  }
}
