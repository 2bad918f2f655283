/**
 * The facts the search keeps about its g-score table (a finite map whose
 * missing keys stand for "infinity"), its predecessor map and its open
 * list, and the lemmas that show one relaxation step keeps them.
 */
module SearchInvariants {
  import opened Grid
  import opened Cost
  import opened Frontier

  lemma {:induction false} SubsetCard<T>(a: set<T>, b: set<T>)
    requires a <= b
    ensures |a| <= |b|
    decreases a
  {
    if a != {} {
      var x :| x in a;
      SubsetCard(a - {x}, b - {x});
    }
  }

  lemma MulMono(k: nat, a: nat, b: nat)
    requires a <= b
    ensures k * a <= k * b
  {
  }

  /** An upper bound on every traffic penalty. */
  ghost function MaxTraffic(traffic: map<Coord, nat>): (m: nat)
    ensures forall c :: c in traffic ==> traffic[c] <= m
    decreases traffic.Keys
  {
    if traffic == map[] then 0
    else
      var c :| c in traffic;
      var rest := traffic - {c};
      assert rest.Keys < traffic.Keys;
      var m := MaxTraffic(rest);
      assert forall k :: k in traffic && k != c ==> k in rest && traffic[k] == rest[k];
      if traffic[c] > m then traffic[c] else m
  }

  /** No step costs more than one plus the largest traffic penalty. */
  lemma StepCostBounded(traffic: map<Coord, nat>, c: Coord)
    ensures StepCost(traffic, c) <= 1 + MaxTraffic(traffic)
  {
  }

  /** No step costs more than step. */
  ghost predicate StepBound(traffic: map<Coord, nat>, step: nat) {
    forall c :: StepCost(traffic, c) <= step
  }

  lemma MaxTrafficBound(traffic: map<Coord, nat>)
    ensures StepBound(traffic, 1 + MaxTraffic(traffic))
  {
    forall c ensures StepCost(traffic, c) <= 1 + MaxTraffic(traffic) {
      StepCostBounded(traffic, c);
    }
  }

  /**
   * Every recorded cell other than start has a predecessor; each
   * predecessor is an adjacent recorded cell with a strictly smaller
   * g-score, and no recorded cell but start is an obstacle.
   */
  ghost predicate PredecessorsOk(cameFrom: map<Coord, Coord>, g: map<Coord, nat>, start: Coord,
                                 grid: seq<seq<int>>, w: nat, h: nat)
    requires WellFormed(grid, w, h)
  {
    && start in g && start !in cameFrom
    && g.Keys == cameFrom.Keys + {start}
    && (forall c :: c in g ==> InBounds(c, w, h))
    && (forall n {:trigger cameFrom[n]} :: n in cameFrom ==>
          && cameFrom[n] in g && g[cameFrom[n]] < g[n]
          && Adjacent(cameFrom[n], n)
          && !IsObstacle(grid, w, h, n))
  }

  /** Recorded cells whose g-score is below v. */
  ghost function Below(g: map<Coord, nat>, v: nat): set<Coord> {
    set m | m in g && g[m] < v
  }

  /**
   * Every g-score is at most step times the number of cells with a
   * smaller one: a g-score is built from a strictly cheaper predecessor's
   * by one step of cost at most step.
   */
  ghost predicate Ranked(g: map<Coord, nat>, step: nat) {
    forall c :: c in g ==> g[c] <= step * |Below(g, g[c])|
  }

  /** Step times the number of cells in the grid. */
  ghost function Cap(step: nat, w: nat, h: nat): nat {
    step * |Box(w, h)|
  }

  /** Hence no g-score exceeds step times the number of cells in the grid. */
  lemma BoundedByCap(g: map<Coord, nat>, step: nat, w: nat, h: nat, c: Coord)
    requires Ranked(g, step) && c in g
    requires forall m :: m in g ==> InBounds(m, w, h)
    ensures g[c] <= Cap(step, w, h)
  {
    forall m | m in Below(g, g[c]) ensures m in Box(w, h) {
      InBox(m, w, h);
    }
    SubsetCard(Below(g, g[c]), Box(w, h));
    MulMono(step, |Below(g, g[c])|, |Box(w, h)|);
  }

  /** Lowering n's g-score to one step above a cheaper cell keeps Ranked. */
  lemma RankAfterUpdate(g: map<Coord, nat>, step: nat, cur: Coord, n: Coord, v: nat)
    requires Ranked(g, step) && cur in g && n != cur
    requires g[cur] < v <= g[cur] + step
    requires n !in g || v < g[n]
    ensures Ranked(g[n := v], step)
  {
    var g' := g[n := v];
    forall c | c in g' ensures g'[c] <= step * |Below(g', g'[c])| {
      if c == n {
        RankOfUpdated(g, step, cur, n, v);
      } else {
        RankOfOther(g, step, n, v, c);
      }
    }
  }

  lemma RankOfUpdated(g: map<Coord, nat>, step: nat, cur: Coord, n: Coord, v: nat)
    requires cur in g && n != cur && g[cur] <= step * |Below(g, g[cur])|
    requires g[cur] < v <= g[cur] + step
    requires n !in g || v < g[n]
    ensures v <= step * |Below(g[n := v], v)|
  {
    var g' := g[n := v];
    var a := Below(g, g[cur]);
    var b := Below(g', v);
    assert a + {cur} <= b;
    assert cur !in a;
    SubsetCard(a + {cur}, b);
    var ka := |a|;
    assert |a + {cur}| == ka + 1;
    assert step * (ka + 1) == step * ka + step;
    MulMono(step, ka + 1, |b|);
  }

  lemma RankOfOther(g: map<Coord, nat>, step: nat, n: Coord, v: nat, c: Coord)
    requires c in g && c != n && g[c] <= step * |Below(g, g[c])|
    requires n !in g || v < g[n]
    ensures g[n := v][c] <= step * |Below(g[n := v], g[c])|
  {
    var a := Below(g, g[c]);
    var b := Below(g[n := v], g[c]);
    assert a <= b;
    SubsetCard(a, b);
    MulMono(step, |a|, |b|);
  }

  /** The (cell, value) pairs a g-score could still be lowered to, values up to cap. */
  ghost function Remaining(g: map<Coord, nat>, w: nat, h: nat, cap: nat): set<(Coord, nat)> {
    set c, v: nat | c in Box(w, h) && v <= cap && (c !in g || v < g[c]) :: (c, v)
  }

  /** A strict improvement of one g-score removes at least one pair. */
  lemma RemainingShrinks(g: map<Coord, nat>, w: nat, h: nat, cap: nat, n: Coord, v: nat)
    requires InBounds(n, w, h) && v <= cap
    requires n !in g || v < g[n]
    ensures Remaining(g[n := v], w, h, cap) < Remaining(g, w, h, cap)
  {
    InBox(n, w, h);
    var g' := g[n := v];
    assert (n, v) in Remaining(g, w, h, cap);
    assert (n, v) !in Remaining(g', w, h, cap);
    forall p | p in Remaining(g', w, h, cap) ensures p in Remaining(g, w, h, cap) {
      var (c, u) := p;
      assert c in Box(w, h) && u <= cap && (c !in g || u < g[c]);
    }
  }

  /** Every in-grid, non-obstacle neighbour of c has a g-score. */
  ghost predicate Expanded(c: Coord, g: map<Coord, nat>, grid: seq<seq<int>>, w: nat, h: nat)
    requires WellFormed(grid, w, h) && InBounds(c, w, h)
  {
    forall n :: n in Neighbors(c, w, h) ==> IsObstacle(grid, w, h, n) || n in g
  }

  /**
   * When every recorded cell is expanded, the recorded cells are closed
   * under steps onto non-obstacles, so a route from a recorded start ends
   * at a recorded cell.
   */
  lemma ClosedContainsRouteEnd(g: map<Coord, nat>, p: seq<Coord>, start: Coord, goal: Coord,
                               grid: seq<seq<int>>, w: nat, h: nat)
    requires WellFormed(grid, w, h)
    requires start in g
    requires forall c :: c in g ==> InBounds(c, w, h) && Expanded(c, g, grid, w, h)
    requires IsRoute(p, start, goal, grid, w, h)
    ensures goal in g
  {
    var i := 0;
    while i < |p| - 1
      invariant 0 <= i < |p| && p[i] in g
    {
      assert Adjacent(p[i], p[i + 1]) && InBounds(p[i + 1], w, h);
      assert p[i + 1] in Neighbors(p[i], w, h);
      i := i + 1;
    }
  }

  /** What the open list holds: recorded cells, keys their f-scores, fresh ids. */
  ghost predicate FrontierOk(frontier: seq<Entry>, g: map<Coord, nat>, nextId: nat) {
    && (forall e :: e in frontier ==> e.state.position in g && e.id < nextId && e.f == e.state.FScore())
    && UniqueIds(frontier)
  }

  /** The invariant of the search loop. */
  ghost predicate SearchInv(start: Coord, goal: Coord, grid: seq<seq<int>>, w: nat, h: nat,
                            frontier: seq<Entry>, g: map<Coord, nat>, cameFrom: map<Coord, Coord>,
                            step: nat, nextId: nat)
    requires WellFormed(grid, w, h)
  {
    && PredecessorsOk(cameFrom, g, start, grid, w, h)
    && g[start] == 0
    && FrontierOk(frontier, g, nextId)
    && (goal in g ==> goal in Positions(frontier))
    && Ranked(g, step)
  }

  /** Every recorded cell is queued, expanded, or in skip. */
  ghost predicate ClosedExcept(g: map<Coord, nat>, frontier: seq<Entry>, skip: set<Coord>,
                               grid: seq<seq<int>>, w: nat, h: nat)
    requires WellFormed(grid, w, h)
    requires forall c :: c in g ==> InBounds(c, w, h)
  {
    forall c :: c in g ==> c in Positions(frontier) || c in skip || Expanded(c, g, grid, w, h)
  }

  /** The part of the search state one expansion updates. */
  datatype Expansion = Expansion(frontier: seq<Entry>, scores: map<Coord, nat>,
                                 preds: map<Coord, Coord>, nextId: nat)

  /** Every scored cell is in the grid, its score at most step times the number of cheaper ones. */
  ghost predicate Bounded(g: map<Coord, nat>, step: nat, w: nat, h: nat) {
    Ranked(g, step) && forall c :: c in g ==> InBounds(c, w, h)
  }

  /** y lowers some score of x, or is x; y scores every cell x does. */
  ghost predicate Progress(x: Expansion, y: Expansion, w: nat, h: nat, cap: nat) {
    && Improves(x.scores, y.scores)
    && (Remaining(y.scores, w, h, cap) < Remaining(x.scores, w, h, cap) || y == x)
  }

  /** The invariants of the search loop hold of x, with current the only cell not yet closed. */
  ghost predicate Held(start: Coord, goal: Coord, grid: seq<seq<int>>, w: nat, h: nat, step: nat,
                       current: Coord, x: Expansion)
    requires WellFormed(grid, w, h)
  {
    && SearchInv(start, goal, grid, w, h, x.frontier, x.scores, x.preds, step, x.nextId)
    && ClosedExcept(x.scores, x.frontier, {current}, grid, w, h)
  }

  /** x after n gets score v and predecessor current and a node st for n is queued under the next id. */
  function Relaxed(x: Expansion, current: Coord, n: Coord, v: nat, st: State): Expansion {
    Expansion(x.frontier + [Entry(st.FScore(), x.nextId, st)], x.scores[n := v],
              x.preds[n := current], x.nextId + 1)
  }

  /** g' is g with some scores lowered or added, none raised. */
  ghost predicate Improves(g: map<Coord, nat>, g': map<Coord, nat>) {
    forall c :: c in g ==> c in g' && g'[c] <= g[c]
  }

  /** A strict improvement of one score keeps Improves. */
  lemma ImprovesUpdate(g0: map<Coord, nat>, g: map<Coord, nat>, n: Coord, v: nat)
    requires Improves(g0, g)
    requires n !in g || v < g[n]
    ensures Improves(g0, g[n := v])
  {
  }

  /** The open list holds the start node alone; only start has a g-score. */
  lemma InitialInv(start: State, goal: Coord, grid: seq<seq<int>>, w: nat, h: nat, step: nat)
    requires WellFormed(grid, w, h) && InBounds(start.position, w, h)
    ensures SearchInv(start.position, goal, grid, w, h, [Entry(start.FScore(), 0, start)],
                      map[start.position := 0], map[], step, 1)
    ensures ClosedExcept(map[start.position := 0], [Entry(start.FScore(), 0, start)], {}, grid, w, h)
  {
    var frontier := [Entry(start.FScore(), 0, start)];
    assert start.position in Positions(frontier);
  }

  /** Popping a non-goal entry leaves its cell the only one possibly unexpanded and unqueued. */
  lemma PopInv(start: Coord, goal: Coord, grid: seq<seq<int>>, w: nat, h: nat,
               frontier: seq<Entry>, g: map<Coord, nat>, cameFrom: map<Coord, Coord>,
               step: nat, nextId: nat, i: nat)
    requires WellFormed(grid, w, h)
    requires SearchInv(start, goal, grid, w, h, frontier, g, cameFrom, step, nextId)
    requires ClosedExcept(g, frontier, {}, grid, w, h)
    requires i < |frontier| && frontier[i].state.position != goal
    ensures frontier[i].state.position in g
    ensures SearchInv(start, goal, grid, w, h, RemoveAt(frontier, i), g, cameFrom, step, nextId)
    ensures ClosedExcept(g, RemoveAt(frontier, i), {frontier[i].state.position}, grid, w, h)
  {
    var r := RemoveAt(frontier, i);
    RemoveAtKeeps(frontier, i);
    assert FrontierOk(r, g, nextId);
  }

  /**
   * Recording current as n's predecessor with the lower score v, and
   * queueing a node st for n, keeps the invariants.
   */
  lemma RelaxInv(start: Coord, goal: Coord, grid: seq<seq<int>>, w: nat, h: nat, step: nat,
                 x: Expansion, current: Coord, n: Coord, v: nat, st: State, y: Expansion)
    requires WellFormed(grid, w, h)
    requires Held(start, goal, grid, w, h, step, current, x)
    requires current in x.scores && Adjacent(current, n)
    requires InBounds(n, w, h) && !IsObstacle(grid, w, h, n)
    requires x.scores[current] < v <= x.scores[current] + step
    requires n !in x.scores || v < x.scores[n]
    requires st.position == n && y == Relaxed(x, current, n, v, st)
    ensures Held(start, goal, grid, w, h, step, current, y)
  {
    var e := Entry(st.FScore(), x.nextId, st);
    RelaxPredecessors(x.preds, x.scores, start, grid, w, h, current, n, v);
    RankAfterUpdate(x.scores, step, current, n, v);
    AppendPositions(x.frontier, e);
    RelaxFrontier(x.frontier, x.scores, x.nextId, n, v, st);
    RelaxClosed(x.scores, x.frontier, current, grid, w, h, n, v, e);
  }

  /**
   * Scoring n through current with its step cost, and queueing a node for
   * n whose g is current's score plus one, keeps the invariants.
   */
  lemma RelaxedHeld(start: Coord, goal: Coord, traffic: map<Coord, nat>,
                    grid: seq<seq<int>>, w: nat, h: nat, step: nat,
                    current: Coord, x: Expansion, n: Coord)
    requires WellFormed(grid, w, h) && StepCost(traffic, n) <= step
    requires Held(start, goal, grid, w, h, step, current, x)
    requires current in x.scores && Adjacent(current, n)
    requires InBounds(n, w, h) && !IsObstacle(grid, w, h, n)
    requires n !in x.scores || x.scores[current] + StepCost(traffic, n) < x.scores[n]
    ensures Held(start, goal, grid, w, h, step, current,
                 Relaxed(x, current, n, x.scores[current] + StepCost(traffic, n), State(n, goal, x.scores[current] + 1)))
  {
    RelaxInv(start, goal, grid, w, h, step, x, current, n,
             x.scores[current] + StepCost(traffic, n), State(n, goal, x.scores[current] + 1),
             Relaxed(x, current, n, x.scores[current] + StepCost(traffic, n), State(n, goal, x.scores[current] + 1)));
  }

  lemma RelaxPredecessors(cameFrom: map<Coord, Coord>, g: map<Coord, nat>, start: Coord,
                          grid: seq<seq<int>>, w: nat, h: nat, current: Coord, n: Coord, v: nat)
    requires WellFormed(grid, w, h)
    requires PredecessorsOk(cameFrom, g, start, grid, w, h) && g[start] == 0
    requires current in g && Adjacent(current, n)
    requires InBounds(n, w, h) && !IsObstacle(grid, w, h, n)
    requires g[current] < v
    requires n !in g || v < g[n]
    ensures PredecessorsOk(cameFrom[n := current], g[n := v], start, grid, w, h)
    ensures g[n := v][start] == 0
  {
    var g' := g[n := v];
    var cf' := cameFrom[n := current];
    assert n != start;
    assert n != current;
    assert g'.Keys == cf'.Keys + {start};
    forall m | m in cf'
      ensures cf'[m] in g' && g'[cf'[m]] < g'[m] && Adjacent(cf'[m], m) && !IsObstacle(grid, w, h, m)
    {
      if m != n {
        assert cf'[m] == cameFrom[m];
        assert cameFrom[m] in g && g[cameFrom[m]] < g[m];
      }
    }
  }

  lemma RelaxFrontier(frontier: seq<Entry>, g: map<Coord, nat>, nextId: nat, n: Coord, v: nat, st: State)
    requires FrontierOk(frontier, g, nextId) && st.position == n
    ensures FrontierOk(frontier + [Entry(st.FScore(), nextId, st)], g[n := v], nextId + 1)
  {
    var f' := frontier + [Entry(st.FScore(), nextId, st)];
    forall e | e in f' ensures e.state.position in g[n := v] && e.id < nextId + 1 && e.f == e.state.FScore() {
      if e != f'[|f'| - 1] {
        assert e in frontier;
      }
    }
    forall a, b | 0 <= a < b < |f'| ensures f'[a].id != f'[b].id {
      assert f'[a] in frontier;
      if b < |frontier| {
        assert f'[a] == frontier[a] && f'[b] == frontier[b];
      }
    }
  }

  lemma RelaxClosed(g: map<Coord, nat>, frontier: seq<Entry>, current: Coord,
                    grid: seq<seq<int>>, w: nat, h: nat, n: Coord, v: nat, e: Entry)
    requires WellFormed(grid, w, h)
    requires forall c :: c in g ==> InBounds(c, w, h)
    requires InBounds(n, w, h) && e.state.position == n
    requires ClosedExcept(g, frontier, {current}, grid, w, h)
    requires Positions(frontier + [e]) == Positions(frontier) + {n}
    ensures ClosedExcept(g[n := v], frontier + [e], {current}, grid, w, h)
  {
    var g' := g[n := v];
    forall c | c in g' ensures c in Positions(frontier + [e]) || c in {current} || Expanded(c, g', grid, w, h) {
      if c != n && c !in Positions(frontier) && c != current {
        assert Expanded(c, g, grid, w, h);
      }
    }
  }
}
