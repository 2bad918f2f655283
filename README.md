# A* route planner — verified model

This project models the path-finding core of `route_planner.py`, a grid
route planner. The grid is a rectangle of cells. A cell holding the code
`OBSTACLE` (1) cannot be entered, and a sparse traffic map adds a penalty
for stepping onto a cell. The planner runs A* from a start cell to a goal
cell. The open list is a binary heap keyed by (f-score, id). The g-score
table starts at infinity everywhere except the start, and a `came_from`
dictionary records predecessors. A neighbour is relaxed only on a strict
improvement. The result is the path rebuilt from `came_from`, or `None`.

The model follows the program's structure:

- `Grid` (grid.dfy): cells, bounds, adjacency, the obstacle test and
  `get_neighbors`.
- `Cost` (cost.dfy): the search node `State`, its Manhattan heuristic and
  f-score, and step costs with traffic. Admissibility and consistency of
  the heuristic are proved here.
- `Frontier` (frontier.dfy): the open list as a sequence of
  (f, id, node) entries. The pop takes the entry with the least (f, id)
  key.
- `SearchInvariants` (invariants.dfy): what the loop keeps true.
  - Every predecessor is an adjacent, recorded cell with a strictly
    smaller g-score.
  - The start is never given a predecessor.
  - No recorded cell but the start is an obstacle.
  - The open list holds recorded cells under fresh, distinct ids.
  - Every recorded cell is queued or fully expanded.
  - A rank bound on the g-scores gives the termination measure.
- `Relaxation` (relaxation.dfy): the neighbour loop as a fold of one
  relaxation step, and what that fold computes.
- `ExpandInvariants` (expand_invariants.dfy): one expansion keeps the
  invariants, never raises a score, and lowers the measure or changes
  nothing.
- `Search` (search.dfy): the imperative search as methods.
  - `AStarSearch` runs the main loop.
  - `Expand` runs the neighbour loop, one `RelaxNeighbor` per neighbour.
  - `ReconstructPath` walks the predecessors back from the goal, appends
    the start, and reverses.

`RelaxNeighbor` is proved equal to one relaxation step (`RelaxStep`), and
`Expand` to the fold of that step over the neighbours (`AfterExpand`). The
invariants one expansion keeps are proved about that fold. `ReconstructPath`
and `AStarSearch` carry their promises directly in their postconditions,
proved with their own loop invariants.

Quirks of the program that the model keeps:

- A queued node's g is the current score plus one, so its heap key leaves
  out the traffic penalty. The stored g-score includes it.
- There is no closed set, so a cell can be expanded more than once.
- The start cell is never tested for being an obstacle.
- A route found is therefore a walk whose cells after the first are in
  the grid and free of obstacles.

The module-level `grid` and `traffic_map`, and the fixed 40×40 size, are
parameters (`grid`, `traffic`, `w`, `h`).

## Model

| member | source | states |
|---|---|---|
| Grid.IsObstacle | route_planner.py:91 | A cell in the grid is an obstacle exactly when its code is `OBSTACLE`. |
| Grid.Neighbors | route_planner.py:54-65 | At most four cells, each adjacent to the input. All are in the grid when the input is. Every in-grid adjacent cell is listed. The order is left, right, up, down. |
| Grid.NeighborsDistinct | route_planner.py:54-65 | No neighbour is listed twice. |
| Cost.Manhattan | route_planner.py:46-49 | The distance is 0 exactly when the two cells are equal. |
| Cost.State.Heuristic | route_planner.py:46-49 | The heuristic is a natural number, and 0 exactly when the node is at the goal. |
| Cost.State.FScore | route_planner.py:43-44 | The f-score is never below g, and equals g exactly at the goal. |
| Cost.Traffic | route_planner.py:95-96 | The penalty of a cell: its traffic-map entry, or 0 when the cell has none. |
| Cost.StepCost | route_planner.py:88-96 | Entering a cell costs at least 1, and exactly 1 when the cell has no traffic penalty. |
| Cost.ManhattanStep | route_planner.py:46-49 | One orthogonal step changes the distance to any cell by exactly one. |
| Cost.HeuristicConsistent | route_planner.py:46-49 | The heuristic is consistent: h(a) <= cost(a→b) + h(b) for adjacent a, b. |
| Cost.StepsAtLeastManhattan | route_planner.py:46-49 | An orthogonal walk takes at least the Manhattan distance in steps. |
| Cost.CostAtLeastSteps | route_planner.py:88-96 | A walk costs at least its number of steps, and exactly that when no cell after the first carries traffic. |
| Cost.HeuristicAdmissible | route_planner.py:46-49 | The heuristic never exceeds the cost of any walk to the goal. |
| Frontier.KeyLess | route_planner.py:51-52 | The heap's order on (f, id, state) entries: smaller f first, then smaller id, as in `__lt__`. |
| Frontier.KeyLessStrictTotal | route_planner.py:51-52 | The (f, id) order is irreflexive, asymmetric and transitive, and total on entries with distinct ids. |
| Frontier.MinIndex | route_planner.py:75 | The popped index is in range, and no entry precedes the entry at it. |
| Frontier.MinIndexUnique | route_planner.py:75 | With distinct ids, the least entry is unique, so the pop is determined. |
| Frontier.RemoveAt | route_planner.py:75 | The pop drops exactly that entry and keeps the others in order; as multisets, the result plus that entry is the old list. |
| Frontier.RemoveAtKeeps | route_planner.py:75 | The pop adds no entry, drops no other entry, keeps ids distinct, and keeps the positions of the other entries queued. |
| Frontier.AppendPositions | route_planner.py:101 | A push adds the pushed cell to the queued cells and drops none. |
| SearchInvariants.MaxTrafficBound | route_planner.py:95-96 | No step costs more than one plus the largest traffic penalty. |
| SearchInvariants.BoundedByCap | route_planner.py:98-100 | Under the rank bound, no g-score exceeds the largest step cost times the number of cells. |
| SearchInvariants.RankAfterUpdate | route_planner.py:98-100 | The update keeps the rank bound. The update sets a score to one step above a cheaper cell, and only when that lowers it. |
| SearchInvariants.RemainingShrinks | route_planner.py:98-100 | A strict improvement removes at least one (cell, value) pair from the finite termination measure. |
| SearchInvariants.ImprovesUpdate | route_planner.py:98-100 | A strict improvement keeps every earlier score at or above the new one. |
| SearchInvariants.ClosedContainsRouteEnd | route_planner.py:87-103 | If every recorded cell is expanded, every route from the start ends at a recorded cell. |
| SearchInvariants.InitialInv | route_planner.py:68-72 | The invariants hold for the initial open list, g-table and empty `came_from`. |
| SearchInvariants.PopInv | route_planner.py:74-76 | After popping a non-goal entry: its cell is recorded, the invariants hold, and only that cell may be neither queued nor expanded. |
| SearchInvariants.Relaxed | route_planner.py:99-101 | The three updates of an improvement: the cell gets the new score and current as predecessor, and its node is pushed under the next id. |
| SearchInvariants.RelaxInv | route_planner.py:98-101 | Recording a strictly lower score, one step from current, with current as predecessor, and queueing the cell, keep the invariants. |
| SearchInvariants.RelaxedHeld | route_planner.py:88-101 | The same for the program's own values: the score through current with traffic, and a node with g equal to current's score plus one. |
| SearchInvariants.RelaxPredecessors | route_planner.py:98-100 | After a relaxation, every predecessor is adjacent and strictly cheaper, the start has none, the start's score stays 0, and no cell with a predecessor is an obstacle. |
| SearchInvariants.RelaxFrontier | route_planner.py:101 | A push under the next id keeps the open list's cells recorded, ids below the counter and distinct, and keys equal to f-scores. |
| SearchInvariants.RelaxClosed | route_planner.py:87-101 | A relaxation keeps every recorded cell queued, expanded, or the one being expanded. |
| Relaxation.Improvable | route_planner.py:91-98 | A step from current onto n lowers n's score: n is in the grid, not an obstacle, and unscored or dearer than the score through current with traffic. Such an n is never current itself. |
| Relaxation.RelaxStep | route_planner.py:88-101 | One pass of the neighbour loop: an improving cell gets the score through current, current as predecessor, and a queued node with g equal to current's score plus one under the next id; otherwise nothing changes. The expanded cell's own score never changes. |
| Relaxation.RelaxAll | route_planner.py:87-101 | The expanded cell's own score never changes during its neighbour loop. |
| Relaxation.AfterExpand | route_planner.py:87-101 | The state after expanding current: the neighbour loop over the neighbours of current, in their order. |
| Relaxation.RelaxAllAt | route_planner.py:91-100 | Over distinct cells, each cell that improves gets the score through current and current as predecessor; every other cell keeps its score and predecessor, or its absence. |
| Relaxation.QueuedEntries | route_planner.py:91-101 | The entries one neighbour loop pushes, in neighbour order: one for each improving cell, numbered from the id counter, each with a node whose g is current's score plus one. |
| Relaxation.QueuedNumbered | route_planner.py:88-101 | Entries queued in one expansion number at most the cells visited. Their ids are consecutive from the counter, and each node's g is current's score plus one with its key its f-score. |
| Relaxation.QueuedPositions | route_planner.py:91-101 | The cells queued are exactly the improving cells. |
| Relaxation.RelaxAllQueue | route_planner.py:101 | Over distinct cells, the loop appends exactly those entries to the open list and advances the counter by their number. |
| Relaxation.ExpandEffect | route_planner.py:87-101 | Expanding a cell: improving neighbours get the new score and predecessor, all other cells are unchanged, and one entry is pushed per improving neighbour in neighbour order. |
| ExpandInvariants.RelaxImprovingHeld | route_planner.py:98-101 | An improving relaxation step keeps the invariants. |
| ExpandInvariants.RelaxStepHeld | route_planner.py:88-101 | Any relaxation step keeps the invariants. |
| ExpandInvariants.RelaxAllHeld | route_planner.py:87-101 | A whole neighbour loop keeps the invariants. |
| ExpandInvariants.ImprovingShrinks | route_planner.py:98-100 | An improving update keeps the scores in the grid and rank-bounded, raises no score, and strictly shrinks the measure. |
| ExpandInvariants.ImprovingProgress | route_planner.py:98-100 | An improving step records the cell, keeps the bounds, and makes progress. |
| ExpandInvariants.RelaxStepBounded | route_planner.py:88-101 | Every step keeps the bounds and makes progress or changes nothing. Afterwards an in-grid neighbour is an obstacle or recorded. |
| ExpandInvariants.ProgressTrans | route_planner.py:87-101 | Progress composes over consecutive steps. |
| ExpandInvariants.RelaxAllProgress | route_planner.py:87-101 | A neighbour loop keeps the bounds and makes progress, and leaves every in-grid neighbour an obstacle or recorded. |
| ExpandInvariants.ExpandCloses | route_planner.py:87-101 | Once every in-grid neighbour is an obstacle or recorded, the expanded cell is closed. |
| ExpandInvariants.ExpandKeeps | route_planner.py:87-101 | An expansion restores the loop invariants, closes the expanded cell, raises no score, and lowers the measure or changes nothing. |
| Search.Reverse | route_planner.py:84 | The result has the same length, with element i taken from position n-1-i. |
| Search.ChainExtend | route_planner.py:80-82 | One more step back through `came_from` keeps the chain recorded, linked and strictly falling in g. |
| Search.ChainIsRoute | route_planner.py:79-85 | A back chain from goal to start, reversed, is a route from start to goal. |
| Search.ReversedChainSteps | route_planner.py:84 | Reversing keeps consecutive cells adjacent. |
| Search.ReversedChainCells | route_planner.py:84 | Reversing keeps every cell after the first in the grid and free of obstacles. |
| Search.ReversedChainRises | route_planner.py:84 | Along the reversed chain the g-score strictly rises. |
| Search.ReversedChainLinks | route_planner.py:79-84 | Along the reversed chain, each cell after the first has the cell before it as its `came_from` entry. |
| Search.ReconstructPath | route_planner.py:79-85 | The path starts at start and ends at goal, with adjacent steps and no obstacle after the start. It is the `came_from` chain itself: each cell after the first has the cell before it as predecessor. g rises strictly along it, and it is [start] when start is the goal. |
| Search.RelaxNeighbor | route_planner.py:88-101 | One pass of the neighbour loop computes exactly one relaxation step: obstacles skipped, traffic added, strict improvement. |
| Search.Expand | route_planner.py:87-101 | The neighbour loop, in left-right-up-down order, computes the fold of relaxation steps over the neighbours. |
| Search.AStarSearch | route_planner.py:67-103 | The search terminates. A returned path is a route from start to goal. `None` is returned only when no route exists. When start is the goal the result is [goal]. |
| Search.ClosedContainsRouteEndOnEmpty | route_planner.py:103 | With the open list empty and the goal unrecorded, no route reaches the goal. |

## Left out

- The user interface is not modelled: window setup, drawing and the event loop (route_planner.py:1-28, 105-234). It is I/O.
- Mouse and keyboard placement of cells, start and goal is not modelled. It is interactive input.
- Saving and loading the map file is not modelled. It is file I/O.
- Printing the path and its length is not modelled. It is console output.
- The codes `ROAD` and `ACCIDENT` are not modelled. The search consults only `OBSTACLE`.
- `id()` tie-break: modelled as an insertion counter (the start gets 0). Object identity is not deterministic, so the model does not say which of several equal-priority entries a real run pops.
- `heapq` internal order: not modelled. The open list is a sequence whose pop takes the least (f, id) entry, which is what `heappop` returns.
- The g-score table is a finite map, and a missing key means infinity. In the program it is a dense 2-D list that starts at `float('inf')` and holds integers once a cell is scored.
- Grid layout: the program builds the grid as `GRID_HEIGHT` rows of `GRID_WIDTH` but indexes it as `grid[x][y]`. The model uses `w` columns of `h` cells, indexed `grid[x][y]`. The two agree at the program's 40×40 size.
- Search.AStarSearch: requires the start to be in the grid. The program indexes the g-score table with the start's position, so an off-grid start raises an exception there. The model does not cover that failure.
- Traffic penalties are natural numbers. The program never fills the traffic map. A negative penalty can make a step cost zero or less, which loses the strict g-order of predecessors. A route cycle of negative total cost can make the search run forever, when the search meets the cycle before it pops the goal.
- Search.ReconstructPath: the in-place `list.reverse()` is modelled as the function `Search.Reverse` on the list value.
- Cost-optimality of the returned path is not claimed. The heap key leaves out the last step's traffic and there is no closed set.
