# Campus COVID simulation: pathfinding core, in Dafny

This project models the core of an agent-based COVID simulation on an
800 × 800 campus map. People walk towards target buildings, infect each
other on contact, and go through the stages susceptible → infected →
infectious → removed. A train runs a stop/resume/respawn cycle.

The model is in three parts.

**Pathfinding.** `pathfinding.py` does the navigation:
- It rasterises the buildings' walls and the map border into a 0/1 occupancy grid (`create_world_array`).
- It builds one distance heatmap per target with a queue-driven wavefront (`create_heatmap`, `expand_heatmap`).
- It answers each agent's query with the step to the neighbouring cell of lowest heatmap value (`get_direction`).

**Objects.** From `objects.py`:
- wall validation and rasterisation (`Wall.__init__`, `Wall.get_pixels`);
- a person's infection stages;
- the train's flag cycle.

**Simulator.** From `simulator.py`:
- the status tally (`get_status_counts`);
- the infection rule applied when shapes collide (`collision_begin`).

Modules, one per file:

- `Wrappers`: `Option` and `Result`. The source's raised exceptions become `Result` failures.
- `Seqs`: one associativity fact about appending.
- `Grid`: coordinates, passability, `Node.get_neighbors` and `Node.distance_to_neighbor`.
- `Frontier`: `Node` and the deduplicating FIFO `Queue`.
- `Walls`: `Wall.__init__` and `Wall.get_pixels`.
- `World`: `Pathfinder.create_world_array`.
- `Routes`: chains of neighbouring passable cells from a target, and their cost.
- `Pathfinding`: the `Pathfinder` class, with `__init__`, `create_heatmap`, `expand_heatmap` and `get_direction`.
- `Agents`: the `Shape`, `Person` and `Train` classes.
- `Simulator`: the `CovidSim` class, with `get_status_counts` and `collision_begin`.

Objects the source updates in place are classes:
- `Queue`;
- `Pathfinder`, with `visited` and the heatmap tensor;
- `Shape`, `Person` and `Train`;
- `CovidSim`, with `collision_points`.

Their methods have `modifies` clauses. The loops of the source are `while`/`for` loops with invariants. Each method is proved against a specification function or predicate, and lemmas prove what the source promises about that function.

Modelling decisions:
- **Node identity.** A `Node` object is referenced either by the queue or by the `visited` dictionary, never by both. `get_neighbors` creates fresh nodes, and a pending node moves into `visited` when it is popped. So `visited` is a map from coordinates to distances, and `Node` is a value.
- **Distances** are exact reals. √2 is the literal 1.4142135623730951 that `np.sqrt(2)` returns. The IEEE rounding of distance sums is not modelled.
- **Density tags.** A shape's density is compared with the tags 1.0, 0.9, 0.8 and 0.7 as an exact value.
- **Randomness** is passed in as parameters:
  - `update_infection_status` takes the outcome of its one draw as a boolean;
  - `collision_begin` takes one boolean per shape;
  - `get_direction`'s fallback takes the two random offsets.

Where the docstrings promise more than the code does, the model follows the code:
- **No re-enqueueing.** The docstring of `expand_heatmap` (pathfinding.py:289-290) says it updates the neighbours' distances whenever a shorter path is found. The code lowers a visited neighbour's distance but does not enqueue it again, and a pending node keeps the distance it was enqueued with. So the heatmap is not an exact shortest-path field. The model proves what the code does guarantee:
  - each cell is expanded at most once;
  - the visited cells are exactly the cells reachable from the target;
  - the target stays at 0;
  - every recorded distance is the cost of some route from the target of neighbouring passable cells;
  - every distance is at least the Chebyshev distance;
  - every recorded distance is at least 1 more than that of a visited neighbour (its parent), so the heatmap descends towards a passable target.
- **Unreachable cells** hold 0 in the heatmap, the same value as the target itself. There is no separate unreachable marker.
- **Descent, not shortest path, in `get_direction`.** Its docstring (pathfinding.py:338) says the agent follows the shortest path. Since the heatmap is not a shortest-path field, the model proves the weaker fact the code guarantees: from a reachable cell other than a passable target, the chosen step lands on a strictly smaller heatmap value.
- **No finiteness filter in `get_direction`.** It takes the minimum over all passable neighbours. It falls back to the random offset only when the cell has no passable neighbour at all.

## Model

| member | source | states |
|---|---|---|
| Grid.GetNeighbors | pathfinding.py:30-67 | the two delta loops return exactly the neighbour list `Neighbors` of the cell |
| Grid.NeighborsSpec | pathfinding.py:30-67 | at most 8 neighbours; a cell is listed iff it is one step away, inside [0,799]², not a wall and not the cell itself; the list is in x-delta-outer, y-delta-inner order, so it has no duplicates |
| Grid.NeighborsStep | pathfinding.py:36-64 | one step of the two loops at (dx, dy) appends the candidate exactly when it passes the source's bounds, wall and self tests |
| Grid.NeighborsInBounds | pathfinding.py:40-46 | every listed neighbour lies inside the grid |
| Grid.NeighborsUpToMember | pathfinding.py:33-64 | after k candidates, a cell is listed iff it is an admissible candidate with an index below k |
| Grid.NeighborsUpToOrdered | pathfinding.py:33-34 | the first k candidates yield at most k entries (one fewer once the centre is passed), in strictly increasing enumeration order |
| Grid.CandidateAt | pathfinding.py:33-37 | step (i, j) of the two loops looks at the cell (x + i - 1, y + j - 1) |
| Grid.CandidateIndex | pathfinding.py:33-37 | every cell within one step of c is visited at the step given by its offset |
| Grid.CandidateOrder | pathfinding.py:33-34 | later steps visit cells later in x-then-y order |
| Grid.CandidateNear | pathfinding.py:33-37 | every candidate lies within one step of the cell |
| Grid.CandidateCentre | pathfinding.py:53-54 | the fifth candidate (delta 0, 0) is the cell itself |
| Grid.DistanceToNeighbor | pathfinding.py:69-105 | fails iff the cells are not within one step, or are the same cell; otherwise 1 iff they share a row or a column, else √2 |
| Grid.DistanceSymmetric | pathfinding.py:69-105 | the edge cost, and the error, are the same in both directions |
| Frontier.ReversedCons | pathfinding.py:116-120 | prepending with `add_node` appends to the leaving order (the reversed list) |
| Frontier.ReversedPop | pathfinding.py:122-127 | `pop()` takes the first node of the leaving order, the one that has waited longest, and leaves the rest in order |
| Frontier.ReversedAt | pathfinding.py:122-127 | element k of the leaving order is element \|s\|-1-k of the list |
| Frontier.ReversedAppend | pathfinding.py:116-127 | the leaving order of a list s + t is the leaving order of t followed by that of s: nodes behind the front part leave first |
| Frontier.Queue.constructor | pathfinding.py:111-114 | the queue holds the start node alone, and the set holds its coordinate |
| Frontier.Queue.AddNode | pathfinding.py:116-120 | a node whose coordinate is pending is dropped; otherwise it is prepended and its coordinate added; the set always equals the coordinates of the list, with no duplicates |
| Frontier.Queue.RemoveNode | pathfinding.py:122-127 | returns the last node of the list (the oldest), removes it, and removes its coordinate from the set; the invariant is kept |
| Frontier.Queue.HasElements | pathfinding.py:129-131 | true iff the list is non-empty |
| Walls.NewWall | objects.py:225-244 | fails with IsDot iff start equals end, with NotAxisAligned iff both coordinates differ, and with EvenThickness iff the wall is axis-aligned and the thickness is even; succeeds iff the wall is valid |
| Walls.AcceptedWallAxisAligned | objects.py:225-239 | an accepted wall is constant in exactly one axis and has odd thickness |
| Walls.GetPixels | objects.py:252-298 | the nested range loops emit exactly the footprint rows, outer loop along the wall, inner loop across it |
| Walls.AppendRow | objects.py:279-283 | one inner loop appends one row of pixels across the wall, in order |
| Walls.RowAt | objects.py:279-283 | a row has one pixel per inner-loop step; its j-th pixel is at offset j across the wall |
| Walls.RowSnoc | objects.py:279-283 | one more inner-loop step appends one pixel to the row |
| Walls.RowsLength | objects.py:274-283 | a outer-loop steps of width w emit a·w pixels |
| Walls.RowsMember | objects.py:274-297 | a cell is emitted iff it lies within the outer and inner ranges |
| Walls.RowsOrdered | objects.py:274-297 | the pixels are emitted in strictly increasing (along, across) order |
| Walls.FootprintCount | objects.py:261-297 | `get_pixels` yields (2e+1)·(\|end − start\| + 2e + 1) pixels, where e = thickness // 2, plus 1 with the buffer pixel |
| Walls.FootprintSpans | objects.py:270-297 | the outer range spans the wall's length plus e at both ends; the inner range spans 2e + 1 cells |
| Walls.FootprintMember | objects.py:270-297 | a cell is emitted iff it lies within e of the wall line across it, and between the endpoints extended by e along it |
| Walls.FootprintDistinct | objects.py:270-297 | no pixel is emitted twice, because they come in strictly increasing order |
| Walls.FootprintSwap | objects.py:272-273 | the pixel list is the same when the start and end points are swapped |
| World.CreateWorldArray | pathfinding.py:240-267 | a new 800×800 array that holds 1 on the border ring and at every cell a wall pixel writes to (negative indices wrap as in numpy), and 0 everywhere else |
| World.MarkPixels | pathfinding.py:252-253 | writing 1 at each pixel of one wall adds exactly those cells to the set of cells holding 1 |
| World.MarkBorder | pathfinding.py:256-259 | the four border assignments set the whole border ring to 1 and leave every other cell alone |
| World.CellsInBounds | pathfinding.py:253 | every cell written through a numpy-accepted index lies inside the grid |
| World.PixelCellsSnoc | pathfinding.py:252-253 | one more pixel adds its cell to the set written |
| Routes.Around | pathfinding.py:297 | the set of cells one passable step away from c |
| Routes.RouteSteps | pathfinding.py:307-331 | a route starts at the target, ends at its cell, and each of its cells is one passable step from the one before |
| Routes.RouteExtend | pathfinding.py:310-312 | a route extended by one step is a route, whose cost grows by that step's `distance_to_neighbor`, which is at least 1 |
| Routes.RouteCostBound | pathfinding.py:69-105 | a route's cost is at least its number of steps, and at least the Chebyshev distance between its ends |
| Routes.ClosedHoldsRoute | pathfinding.py:277-279 | a cell set that holds the target and is closed under steps holds every cell on a route from the target |
| Pathfinding.Lowered | pathfinding.py:321-331 | the kept distance is the old one unless the offer is strictly smaller, in which case it is the offer |
| Pathfinding.TargetsInBounds | pathfinding.py:145-176 | there are 30 targets, all inside the grid |
| Pathfinding.TensorIndex | pathfinding.py:350 | a heatmap-tensor index in [-count, count) resolves, as in numpy, to the index or the index plus count |
| Pathfinding.Pathfinder.constructor | pathfinding.py:135-203 | builds the world array as `create_world_array` does, so a cell is a wall iff it is in the grid and on the border or under a building pixel; fixes the 30 targets; and leaves one heatmap layer per target, each meeting `LayerFor` (the object invariant `Valid`) |
| Pathfinding.Pathfinder.AppendHeatmap | pathfinding.py:196-203 | one loop round appends a newly allocated heatmap layer for the next target, built from a node at distance 0, and leaves the earlier layers as they were |
| Pathfinding.LayersForSnoc | pathfinding.py:196-203 | appending a layer for the next target keeps every layer a `LayerFor` its target |
| Pathfinding.Pathfinder.CreateHeatmap | pathfinding.py:269-285 | visited ends up as exactly the cells reachable from the target; the target is at 0; each distance is the cost of a route from the target and at least the Chebyshev distance; the layer holds the truncated distance at visited cells and 0 elsewhere, and descends towards a passable target; there are no more expansions than passable cells plus one |
| Pathfinding.Pathfinder.Wavefront | pathfinding.py:277-279 | the loop ends with the queue empty, the bookkeeping and the parent of every visited cell intact, visited closed under steps, the target at 0, and one expansion per visited cell |
| Pathfinding.Pathfinder.ExpandNext | pathfinding.py:277-279 | one round pops the last node of the queue list; visited gains exactly its cell, at its distance; visited neighbours are lowered as in `expand_heatmap`; the new queue list is the offers of its neighbours in front of the rest of the old list; bookkeeping, parents and closure are kept |
| Pathfinding.Pathfinder.FillHeatmap | pathfinding.py:281-283 | a new zero layer holding the truncated distance at every visited cell |
| Pathfinding.Pathfinder.ExpandHeatmap | pathfinding.py:287-331 | the current cell joins visited at its distance; each visited one-step neighbour is lowered to the offer if that is shorter, and all other visited cells keep theirs; the new queue list is the nodes of the unvisited, not yet pending neighbours, last neighbour first, each at the current distance plus the edge cost, in front of the old list; exactly the unvisited neighbours become pending; bookkeeping, parents and closure are kept |
| Pathfinding.Pathfinder.Visit | pathfinding.py:294 | the current node's distance is recorded in visited, and the bookkeeping and parents are kept |
| Pathfinding.Pathfinder.RelaxAll | pathfinding.py:304-331 | after the neighbour loop, each visited neighbour holds the lowered distance and the other cells are unchanged; the new queue list is `Offers` of the neighbours in front of the old list; the unvisited neighbours are added to the pending set |
| Pathfinding.Pathfinder.RelaxNext | pathfinding.py:304-331 | one round of the neighbour loop: the node of the neighbour goes in front of the nodes already offered unless the neighbour was visited or pending before the loop; the neighbour joins the handled set; the loop's invariants are kept |
| Pathfinding.Pathfinder.Relax | pathfinding.py:306-331 | an unvisited, not pending neighbour is prepended to the queue list at the current distance plus the edge cost; a pending one leaves the list as it was; a visited one is lowered to that value if that is strictly shorter; nothing else changes |
| Pathfinding.Pathfinder.Offer | pathfinding.py:307-315 | an unvisited neighbour is offered to the queue: prepended at the current distance plus the edge cost unless already pending, and its coordinate is pending afterwards; bookkeeping and parents are kept |
| Pathfinding.Pathfinder.Lower | pathfinding.py:318-331 | a visited neighbour's distance becomes the lowered value and no other entry changes; bookkeeping and parents are kept |
| Pathfinding.VisitPreserves | pathfinding.py:294 | marking the popped node visited keeps visited and pending disjoint, with every entry recorded by a route |
| Pathfinding.EnqueuePreserves | pathfinding.py:307-315 | enqueueing an unseen neighbour at the current distance plus the edge cost keeps the bookkeeping, with the route extended by one step |
| Pathfinding.LowerPreserves | pathfinding.py:318-331 | lowering a visited neighbour to the route through the current cell keeps the bookkeeping |
| Pathfinding.NeighborsAreSteps | pathfinding.py:297 | the neighbour list holds, once each, exactly the cells one passable step away |
| Pathfinding.NeighborsAround | pathfinding.py:304 | the neighbours handled by the loop are exactly the cells one step away |
| Pathfinding.ClosedAfterExpand | pathfinding.py:293-315 | once the current cell's neighbours are all visited or pending, the visited set is closed again |
| Pathfinding.DequeuePreserves | pathfinding.py:278 | the popped node is pending, unvisited, recorded by a route, and the rest of the queue keeps the bookkeeping |
| Pathfinding.VisitedIsReachable | pathfinding.py:277-279 | when nothing is pending, the visited cells are exactly those reachable from the target |
| Pathfinding.VisitedWithin | pathfinding.py:294 | every visited cell is a passable cell of the grid, or the target |
| Pathfinding.SearchOutcome | pathfinding.py:269-285 | a finished search visits exactly the reachable cells, each at least its Chebyshev distance away, and no more cells than there are passable ones plus one |
| Pathfinding.RecordedBound | pathfinding.py:310-331 | a recorded distance, and its truncation, are at least the Chebyshev distance from the target |
| Pathfinding.LayerOfSearch | pathfinding.py:281-283 | the layer of a finished search is 0 at unreachable cells and at the target, and the truncated cost of a route at every reachable cell; when the target is passable, every other reachable cell has a one-step neighbour with a smaller value |
| Pathfinding.OffersMember | pathfinding.py:304-315 | a node is among the offers iff its cell is a listed neighbour that is neither visited nor pending, and its distance is the current distance plus the edge cost |
| Pathfinding.OffersDistinct | pathfinding.py:304-315 | the offers name each cell at most once when the neighbour list has no duplicates |
| Pathfinding.OffersIgnore | pathfinding.py:294-315 | a cell that is not a neighbour does not change the offers, whether or not it is counted as visited or pending |
| Pathfinding.OffersSnoc | pathfinding.py:304-315 | one more neighbour puts its node in front of the earlier offers exactly when it is neither visited nor pending |
| Pathfinding.OffersLeaveInOrder | pathfinding.py:116-127 | the offered nodes leave the queue after every node already waiting, and in neighbour order |
| Pathfinding.DequeueParented | pathfinding.py:278 | the popped node has a visited parent one step away that supports its distance, and the rest of the queue keeps its parents |
| Pathfinding.VisitParented | pathfinding.py:294 | marking the popped node visited keeps every parent |
| Pathfinding.EnqueueParented | pathfinding.py:307-315 | enqueueing a new neighbour makes the current cell its parent and keeps every other parent |
| Pathfinding.LowerParented | pathfinding.py:318-331 | lowering a visited neighbour through the current cell makes it the parent and keeps every other parent |
| Pathfinding.StepCostAtLeastOne | pathfinding.py:69-105 | every step costs at least 1 |
| Pathfinding.ParentDescends | pathfinding.py:269-285 | in a finished search from a passable target, each visited cell other than the target has a visited parent one step away whose distance truncates to a smaller value |
| Pathfinding.Pathfinder.GetDirection | pathfinding.py:333-366 | with a passable neighbour, the offset to the first neighbour with the strictly smallest heatmap value, which is non-zero, in {-1,0,1}², and lands on a passable cell; with none, the random fallback offset; with the object invariant, from a reachable cell other than a passable target the step lands on a strictly smaller heatmap value |
| Pathfinding.DescentStep | pathfinding.py:333-366 | on a layer for a passable target, a reachable cell other than the target has a listed neighbour with a smaller value |
| Pathfinding.DirectionDescends | pathfinding.py:333-366 | on such a layer, the offset to a smallest neighbour leads to a smaller value |
| Pathfinding.Pathfinder.ValidDirectionDescends | pathfinding.py:333-366 | with the object invariant, the step to a smallest neighbour of a reachable cell other than a passable target lands on a smaller heatmap value |
| Agents.Shape.constructor | objects.py:48-49 | a shape of the given class, density and position |
| Agents.Person.constructor | objects.py:48-56 | a circle shape of density 1 and the status "susceptible" |
| Agents.Person.Infect | objects.py:95-100 | the density becomes 0.9 and the status "infected" |
| Agents.Person.UpdateInfectionStatus | objects.py:173-203 | status and density move as `InfectionStep` says for the draw's outcome |
| Agents.InfectionStepAdvances | objects.py:186-203 | one call moves the stage on by at most one, and changes the tag iff the draw succeeds on tag 0.9 or 0.8 |
| Agents.InfectionStepFixed | objects.py:186-203 | tags 1.0 and 0.7 are left unchanged |
| Agents.InfectionStepCoherent | objects.py:186-203 | a status that matches its tag still matches after the call, and a person tagged 0.9 always ends with a matching status |
| Agents.Train.constructor | objects.py:322-355 | moving, not stopped, door closed, driving velocity, at the start position; the cycle invariant holds |
| Agents.Train.OpenDoor | objects.py:415-419 | the door flag is set |
| Agents.Train.CloseDoor | objects.py:409-413 | the door flag is cleared |
| Agents.Train.UpdateState | objects.py:362-399 | the new flags, velocity and position are `UpdateStep` of the old ones, and the cycle invariant is kept |
| Agents.GuardsDisjoint | objects.py:372-395 | the stop, resume and respawn guards never hold at the same timestep, whatever the flags |
| Agents.NearCycleStart | objects.py:373-395 | within 50 steps after a multiple of 36000, timestep % 9000 equals timestep % 36000 |
| Agents.AtMostOneTransition | objects.py:371-399 | one call makes at most one of the three transitions, and makes it whenever its guard holds |
| Agents.UpdateKeepsCycle | objects.py:378-397 | `door_is_open == not moving` and `moving or stopped_at_station` are kept by every update |
| Agents.InitialCycle | objects.py:322-324 | the initial flags meet that invariant |
| Simulator.CovidSim.constructor | simulator.py:48 | no people yet, and no collision points |
| Simulator.CovidSim.GetStatusCounts | simulator.py:175-195 | the counts of "susceptible", "infected" and "infectious", and of every other status as removed; they sum to the number of people |
| Simulator.CountsTotal | simulator.py:186-195 | the four counts add up to the length of the status list |
| Simulator.CountOfMultiset | simulator.py:186-192 | each named count is the multiplicity of that status in the list |
| Simulator.CovidSim.CollisionBegin | simulator.py:142-173 | returns true; every density becomes `SpreadDensities` of the old ones, and the positions of the shapes that caught the infection are appended to the collision points in order |
| Simulator.CovidSim.SpreadAll | simulator.py:162-172 | the second loop tags every susceptible shape whose draw succeeds as 0.9, and records its position |
| Simulator.CovidSim.CatchInfection | simulator.py:164-169 | a shape changes, to 0.9, iff it is tagged 1.0 and its draw succeeds |
| Simulator.NoSpreadNoChange | simulator.py:153-162 | with a Segment among the shapes, or no shape tagged 0.8, no density changes and no point is recorded |
| Simulator.SpreadChangesOnlySusceptible | simulator.py:159-169 | a shape changes iff it is tagged 1.0, its draw succeeds and the collision spreads; it then becomes 0.9 |
| Simulator.CaughtPositionsCount | simulator.py:164-172 | one collision point per infected shape, at that shape's position |

## Left out

- pygame rendering, window and image loading, the event loop and `run`: all are user interface.
- pymunk physics:
  - the bodies and their motion;
  - `world.step`;
  - the door segment's endpoint edits in `open_door`/`close_door`.
  These are foreign calls. Only the `door_is_open` flag is modelled. (The door code unpacks `_get_door_coordinates` in a different order from the one it returns; this geometry is not part of this model.)
- `Person.__init__`'s random velocity, target choice and Gaussian placement, `update_velocity` and `update_target`: randomness and floating point. The constructor takes the position as a parameter.
- `save_heatmap_tensor`, `load_heatmap_tensor` and the precomputed-heatmap branch of `Pathfinder.__init__`: file-system I/O. The model always computes the heatmaps.
- `skimage.measure.block_reduce` with a (1, 1) window, which is the identity.
- The `print` calls: console output.
- IEEE rounding: distance sums and √2 are exact reals. The `np.inf` start value of `get_direction` is replaced by "no best neighbour yet", which gives the same choice.
- Pathfinding.Pathfinder.constructor: the targets' heatmap tensor is a sequence of separate 800 × 800 layers, not one 3-D numpy array. The layers hold the integer values `create_heatmap` returned.
- World.CreateWorldArray: the model requires every wall pixel to be an index numpy accepts. With any other pixel, numpy raises IndexError, and that crash is not modelled.
- Walls.NewWall: wall coordinates are integers. `get_pixels` uses them as range bounds, so float coordinates would fail there anyway.
- Simulator.CovidSim.CollisionBegin: requires the shapes of the collision to be distinct objects, as pymunk's arbiter gives them. The random draws are supplied one per shape. A draw is consulted only for a tag-1.0 shape of a spreading collision.
- Agents.Person.UpdateInfectionStatus: the draw `np.random.random() <= rate` is supplied as its outcome. The average incubation and infectious times therefore do not appear.
- Pathfinding.Pathfinder.GetDirection: `np.random.choice([-1, 0, 1])` is supplied as the two offsets `randomX` and `randomY`.
- The sequence of persons in `CovidSim.people` is set up by `run`, which is not part of this model.
- `sim.pf = self` (pathfinding.py:207): the simulator's back-reference to the Pathfinder is wiring between objects; the model passes the Pathfinder's results explicitly.
- Pathfinding.Pathfinder.GetDirection: the descent towards the target is proved only when the target cell is passable. When the target is a wall cell, its neighbours would have to step into a wall to reach it, which `get_neighbors` never offers, so no descent is claimed there.
- Pathfinding.Pathfinder.GetDirection: the shortest-path promise of the docstring is replaced by descent, because the heatmap is not a shortest-path field (see above).
