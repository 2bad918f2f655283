/**
 * A* search over the grid: the open list, the g-score table and the
 * predecessor map, and the path rebuilt from the predecessors.
 */
module Search {
  import opened Options
  import opened Grid
  import opened Cost
  import opened Frontier
  import opened SearchInvariants
  import opened Relaxation
  import opened ExpandInvariants

  /** s in the opposite order (the list's in-place reverse). */
  function Reverse<T>(s: seq<T>): (r: seq<T>)
    ensures |r| == |s|
    ensures forall i :: 0 <= i < |s| ==> r[i] == s[|s| - 1 - i]
  {
    if s == [] then [] else [s[|s| - 1]] + Reverse(s[..|s| - 1])
  }

  /**
   * chain follows the predecessor map from its first cell, each cell
   * recorded, with g-scores strictly falling along it.
   */
  ghost predicate BackChain(chain: seq<Coord>, cameFrom: map<Coord, Coord>, g: map<Coord, nat>) {
    && (forall i :: 0 <= i < |chain| ==> chain[i] in g)
    && (forall i :: 0 <= i < |chain| - 1 ==> chain[i] in cameFrom && cameFrom[chain[i]] == chain[i + 1])
    && (forall i, j :: 0 <= i < j < |chain| ==> g[chain[j]] < g[chain[i]])
  }

  lemma ChainExtend(chain: seq<Coord>, cameFrom: map<Coord, Coord>, g: map<Coord, nat>)
    requires |chain| > 0 && BackChain(chain, cameFrom, g)
    requires var last := chain[|chain| - 1];
      last in cameFrom && cameFrom[last] in g && g[cameFrom[last]] < g[last]
    ensures BackChain(chain + [cameFrom[chain[|chain| - 1]]], cameFrom, g)
  {
    var n := |chain|;
    var c' := chain + [cameFrom[chain[n - 1]]];
    forall i | 0 <= i < |c'| ensures c'[i] in g {
      if i < n { assert c'[i] == chain[i]; }
    }
    forall i | 0 <= i < |c'| - 1 ensures c'[i] in cameFrom && cameFrom[c'[i]] == c'[i + 1] {
      assert c'[i] == chain[i];
      if i < n - 1 { assert c'[i + 1] == chain[i + 1]; }
    }
    forall i, j | 0 <= i < j < |c'| ensures g[c'[j]] < g[c'[i]] {
      assert c'[i] == chain[i];
      if j < n {
        assert c'[j] == chain[j];
      } else if i < n - 1 {
        assert g[chain[n - 1]] < g[chain[i]];
      }
    }
  }

  /** A back chain from goal to start, reversed, is a route from start to goal. */
  lemma ChainIsRoute(chain: seq<Coord>, cameFrom: map<Coord, Coord>, g: map<Coord, nat>,
                     start: Coord, goal: Coord, grid: seq<seq<int>>, w: nat, h: nat)
    requires WellFormed(grid, w, h)
    requires PredecessorsOk(cameFrom, g, start, grid, w, h)
    requires |chain| > 0 && chain[0] == goal && chain[|chain| - 1] == start
    requires BackChain(chain, cameFrom, g)
    ensures IsRoute(Reverse(chain), start, goal, grid, w, h)
  {
    forall i | 0 <= i < |chain| - 1
      ensures Adjacent(chain[i + 1], chain[i])
      ensures InBounds(chain[i], w, h) && !IsObstacle(grid, w, h, chain[i])
    {
      assert chain[i] in cameFrom && cameFrom[chain[i]] == chain[i + 1];
    }
    ReversedChainSteps(chain);
    ReversedChainCells(chain, grid, w, h);
  }

  lemma ReversedChainSteps(chain: seq<Coord>)
    requires forall i :: 0 <= i < |chain| - 1 ==> Adjacent(chain[i + 1], chain[i])
    ensures forall i :: 0 <= i < |chain| - 1 ==> Adjacent(Reverse(chain)[i], Reverse(chain)[i + 1])
  {
    var p := Reverse(chain);
    var n := |chain|;
    forall i | 0 <= i < n - 1 ensures Adjacent(p[i], p[i + 1]) {
      assert p[i] == chain[n - 1 - i] && p[i + 1] == chain[n - 2 - i];
    }
  }

  lemma ReversedChainCells(chain: seq<Coord>, grid: seq<seq<int>>, w: nat, h: nat)
    requires WellFormed(grid, w, h)
    requires forall i :: 0 <= i < |chain| - 1 ==> InBounds(chain[i], w, h) && !IsObstacle(grid, w, h, chain[i])
    ensures forall i :: 0 < i < |chain| ==> InBounds(Reverse(chain)[i], w, h) && !IsObstacle(grid, w, h, Reverse(chain)[i])
  {
    var p := Reverse(chain);
    var n := |chain|;
    forall i | 0 < i < n ensures InBounds(p[i], w, h) && !IsObstacle(grid, w, h, p[i]) {
      assert p[i] == chain[n - 1 - i];
    }
  }

  /** Along a back chain reversed, the g-score strictly rises. */
  lemma ReversedChainRises(chain: seq<Coord>, cameFrom: map<Coord, Coord>, g: map<Coord, nat>)
    requires BackChain(chain, cameFrom, g)
    ensures forall i, j :: 0 <= i < j < |chain| ==>
              Reverse(chain)[i] in g && Reverse(chain)[j] in g && g[Reverse(chain)[i]] < g[Reverse(chain)[j]]
  {
    var p := Reverse(chain);
    var n := |chain|;
    forall i, j | 0 <= i < j < n ensures p[i] in g && p[j] in g && g[p[i]] < g[p[j]] {
      assert p[i] == chain[n - 1 - i] && p[j] == chain[n - 1 - j];
    }
  }

  /** Along a back chain reversed, each cell after the first has the cell before it as predecessor. */
  lemma ReversedChainLinks(chain: seq<Coord>, cameFrom: map<Coord, Coord>)
    requires forall i :: 0 <= i < |chain| - 1 ==> chain[i] in cameFrom && cameFrom[chain[i]] == chain[i + 1]
    ensures forall i :: 0 < i < |chain| ==>
              Reverse(chain)[i] in cameFrom && cameFrom[Reverse(chain)[i]] == Reverse(chain)[i - 1]
  {
    var p := Reverse(chain);
    var n := |chain|;
    forall i | 0 < i < n ensures p[i] in cameFrom && cameFrom[p[i]] == p[i - 1] {
      assert p[i] == chain[n - 1 - i] && p[i - 1] == chain[n - i];
    }
  }

  /**
   * Walks the predecessor map back from goal, appending each cell, then
   * appends start and reverses: a route from start to goal along which
   * the g-score strictly rises.
   */
  method ReconstructPath(cameFrom: map<Coord, Coord>, g: map<Coord, nat>, start: Coord, goal: Coord,
                         grid: seq<seq<int>>, w: nat, h: nat)
    returns (path: seq<Coord>)
    requires WellFormed(grid, w, h)
    requires PredecessorsOk(cameFrom, g, start, grid, w, h)
    requires goal in g
    ensures IsRoute(path, start, goal, grid, w, h)
    ensures forall i, j :: 0 <= i < j < |path| ==> path[i] in g && path[j] in g && g[path[i]] < g[path[j]]
    ensures forall i :: 0 < i < |path| ==> path[i] in cameFrom && cameFrom[path[i]] == path[i - 1]
    ensures start == goal ==> path == [start]
  {
    var current := goal;
    var walked: seq<Coord> := [];
    while current in cameFrom
      invariant current in g
      invariant (walked + [current])[0] == goal
      invariant BackChain(walked + [current], cameFrom, g)
      decreases g[current]
    {
      ChainExtend(walked + [current], cameFrom, g);
      walked := walked + [current];
      current := cameFrom[current];
    }
    walked := walked + [start];
    ChainIsRoute(walked, cameFrom, g, start, goal, grid, w, h);
    ReversedChainRises(walked, cameFrom, g);
    ReversedChainLinks(walked, cameFrom);
    path := Reverse(walked);
  }

  /**
   * One pass of the loop over the neighbours of current: an obstacle is
   * skipped; otherwise the tentative score is current's score plus one
   * plus the neighbour's traffic penalty, and when it is strictly lower
   * than the neighbour's score the neighbour gets current as predecessor,
   * the new score and a fresh open-list entry whose node has g equal to
   * current's score plus one.
   */
  method RelaxNeighbor(current: Coord, neighbor: Coord, goal: Coord, traffic: map<Coord, nat>,
                       grid: seq<seq<int>>, w: nat, h: nat,
                       frontier: seq<Entry>, gScore: map<Coord, nat>, cameFrom: map<Coord, Coord>, nextId: nat)
    returns (frontier': seq<Entry>, gScore': map<Coord, nat>, cameFrom': map<Coord, Coord>, nextId': nat)
    requires WellFormed(grid, w, h) && InBounds(neighbor, w, h)
    requires current in gScore
    ensures Expansion(frontier', gScore', cameFrom', nextId')
         == RelaxStep(Expansion(frontier, gScore, cameFrom, nextId), neighbor, traffic, grid, w, h, current, goal)
  {
    ghost var before := Expansion(frontier, gScore, cameFrom, nextId);
    frontier', gScore', cameFrom', nextId' := frontier, gScore, cameFrom, nextId;
    var neighborState := State(neighbor, goal, gScore[current] + 1);
    var tentative := neighborState.g;

    if grid[neighbor.x][neighbor.y] == OBSTACLE {
      RelaxStepUnchanged(before, neighbor, traffic, grid, w, h, current, goal);
      return;
    }

    if neighbor in traffic {
      tentative := tentative + traffic[neighbor];
    }

    if neighbor !in gScore || tentative < gScore[neighbor] {
      RelaxStepImproving(before, neighbor, traffic, grid, w, h, current, goal);
      cameFrom' := cameFrom[neighbor := current];
      gScore' := gScore[neighbor := tentative];
      frontier' := frontier + [Entry(neighborState.FScore(), nextId, neighborState)];
      nextId' := nextId + 1;
    } else {
      RelaxStepUnchanged(before, neighbor, traffic, grid, w, h, current, goal);
    }
  }

  /**
   * The body of the search loop after the goal test: the neighbours of
   * current relaxed one after another, in the order left, right, up,
   * down.
   */
  method Expand(current: Coord, goal: Coord, traffic: map<Coord, nat>,
                grid: seq<seq<int>>, w: nat, h: nat,
                frontier: seq<Entry>, gScore: map<Coord, nat>, cameFrom: map<Coord, Coord>, nextId: nat)
    returns (frontier': seq<Entry>, gScore': map<Coord, nat>, cameFrom': map<Coord, Coord>, nextId': nat)
    requires WellFormed(grid, w, h)
    requires current in gScore && InBounds(current, w, h)
    ensures Expansion(frontier', gScore', cameFrom', nextId')
         == AfterExpand(Expansion(frontier, gScore, cameFrom, nextId), traffic, grid, w, h, current, goal)
  {
    ghost var x0 := Expansion(frontier, gScore, cameFrom, nextId);
    frontier', gScore', cameFrom', nextId' := frontier, gScore, cameFrom, nextId;
    var ns := Neighbors(current, w, h);
    var k := 0;
    while k < |ns|
      invariant k <= |ns|
      invariant current in gScore' && gScore'[current] == gScore[current]
      invariant Expansion(frontier', gScore', cameFrom', nextId')
             == RelaxAll(ns[..k], x0, traffic, grid, w, h, current, goal)
    {
      frontier', gScore', cameFrom', nextId' :=
        RelaxNeighbor(current, ns[k], goal, traffic, grid, w, h, frontier', gScore', cameFrom', nextId');
      assert ns[..k + 1][..k] == ns[..k];
      k := k + 1;
    }
    assert ns[..k] == ns;
  }

  /**
   * The search from start.position to goal. The open list is keyed by
   * the f-score of a node whose g is the current g-score plus one (the
   * traffic penalty is not in the key); the recorded g-score includes it.
   * There is no closed set, so a cell may be expanded more than once, and
   * the start cell is never tested for being an obstacle.
   */
  method AStarSearch(start: State, goal: Coord, traffic: map<Coord, nat>,
                     grid: seq<seq<int>>, w: nat, h: nat)
    returns (result: Option<seq<Coord>>)
    requires WellFormed(grid, w, h)
    requires InBounds(start.position, w, h)
    ensures result.Some? ==> IsRoute(result.value, start.position, goal, grid, w, h)
    ensures result.None? ==> forall p :: !IsRoute(p, start.position, goal, grid, w, h)
    ensures start.position == goal ==> result == Some([goal])
  {
    var frontier := [Entry(start.FScore(), 0, start)];
    var nextId := 1;
    var cameFrom: map<Coord, Coord> := map[];
    var gScore: map<Coord, nat> := map[start.position := 0];
    ghost var step := 1 + MaxTraffic(traffic);
    ghost var cap := Cap(step, w, h);
    InitialInv(start, goal, grid, w, h, step);
    MaxTrafficBound(traffic);

    while frontier != []
      invariant SearchInv(start.position, goal, grid, w, h, frontier, gScore, cameFrom, step, nextId)
      invariant ClosedExcept(gScore, frontier, {}, grid, w, h)
      decreases Remaining(gScore, w, h, cap), |frontier|
    {
      var i := MinIndex(frontier);
      var currentState := frontier[i].state;
      var current := currentState.position;
      if current != goal {
        PopInv(start.position, goal, grid, w, h, frontier, gScore, cameFrom, step, nextId, i);
      }
      frontier := RemoveAt(frontier, i);

      if current == goal {
        var path := ReconstructPath(cameFrom, gScore, start.position, goal, grid, w, h);
        return Some(path);
      }

      ExpandKeeps(start.position, goal, traffic, grid, w, h, step, current,
                  Expansion(frontier, gScore, cameFrom, nextId));
      frontier, gScore, cameFrom, nextId :=
        Expand(current, goal, traffic, grid, w, h, frontier, gScore, cameFrom, nextId);
    }

    ClosedContainsRouteEndOnEmpty(gScore, start.position, goal, grid, w, h);
    return None;
  }

  /** With an empty open list, no route reaches goal. */
  lemma ClosedContainsRouteEndOnEmpty(g: map<Coord, nat>, start: Coord, goal: Coord,
                                      grid: seq<seq<int>>, w: nat, h: nat)
    requires WellFormed(grid, w, h)
    requires start in g && goal !in g
    requires forall c :: c in g ==> InBounds(c, w, h)
    requires ClosedExcept(g, [], {}, grid, w, h)
    ensures forall p :: !IsRoute(p, start, goal, grid, w, h)
  {
    forall p | IsRoute(p, start, goal, grid, w, h) ensures false {
      ClosedContainsRouteEnd(g, p, start, goal, grid, w, h);
    }
  }
}
