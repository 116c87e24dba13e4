/**
 * The Pathfinder: one heatmap per target, built by a queue-driven wavefront
 * from the target outward (create_heatmap / expand_heatmap), and the
 * direction query that agents use (get_direction).
 *
 * The wavefront is not an exact shortest-path computation: the distance of
 * a pending node is fixed when it is first enqueued, and a visited node whose
 * distance is lowered is not enqueued again. What the model proves is what
 * the code guarantees: each cell is expanded at most once, the visited cells
 * are exactly the cells reachable from the target, the target keeps distance
 * 0, every recorded distance is the cost of some chain of neighbouring cells
 * from the target, and the returned layer holds the truncated distance at
 * visited cells and 0 everywhere else.
 *
 * Each expansion puts the nodes of its unvisited, not yet pending neighbours
 * in front of the queue list, in neighbour order (Offers), so they leave the
 * queue after every node already waiting. A ghost parent map records, for
 * each visited or pending cell, the cell whose expansion set its distance;
 * parents are at least one step cheaper, so on a layer for a passable target
 * every other reachable cell has a neighbour with a smaller value, and the
 * step get_direction picks leads downhill.
 *
 * The search reasons about the wall cells as a set (Grid.WallSet of the world
 * array), which the Pathfinder fixes once the world array is built.
 */
module Pathfinding {
  import opened Wrappers
  import opened Grid
  import opened Frontier
  import opened Routes
  import opened Walls
  import opened World
  import opened Seqs

  /** The cells a search may record: the target itself, and passable cells of the grid. */
  predicate CellOk(walls: set<Coord>, target: Coord, c: Coord) {
    c == target || (InBounds(c) && c !in walls)
  }

  /** d is the cost of the route kept for c, a chain of steps from the target. */
  ghost predicate Recorded(walls: set<Coord>, target: Coord, routes: map<Coord, seq<Coord>>, c: Coord, d: real) {
    c in routes && IsRoute(walls, target, c, routes[c]) && RouteCost(routes[c]) == d && d >= 0.0
  }

  /** Every neighbour of a visited cell is visited or pending. */
  ghost predicate Closed(walls: set<Coord>, visited: set<Coord>, pending: set<Coord>) {
    forall v, n :: v in visited && Step(walls, v, n) ==> n in visited || n in pending
  }

  /**
   * The bookkeeping of one heatmap build: visited and pending cells are
   * disjoint, and each of them has a route from the target that costs its
   * distance.
   */
  ghost predicate SearchState(walls: set<Coord>, target: Coord, visited: map<Coord, real>,
                              routes: map<Coord, seq<Coord>>, queue: seq<Node>, pending: set<Coord>) {
    && InBounds(target)
    && visited.Keys !! pending
    && (forall c {:trigger CellOk(walls, target, c)} {:trigger Recorded(walls, target, routes, c, visited[c])} ::
          c in visited ==> CellOk(walls, target, c) && Recorded(walls, target, routes, c, visited[c]))
    && (forall n :: n in queue ==>
          n.Coordinates() in pending && CellOk(walls, target, n.Coordinates()) &&
          Recorded(walls, target, routes, n.Coordinates(), n.distance))
  }

  /**
   * c, recorded at d, has a parent: a visited cell one step away whose
   * distance plus the edge cost to c is at most d.
   */
  ghost predicate ParentOk(walls: set<Coord>, visited: map<Coord, real>, parents: map<Coord, Coord>, c: Coord, d: real) {
    c in parents && parents[c] in visited && Step(walls, parents[c], c) &&
    visited[parents[c]] + StepCost(parents[c], c) <= d
  }

  /** Every visited and every pending cell other than the target has a parent. */
  ghost predicate Parented(walls: set<Coord>, target: Coord, visited: map<Coord, real>, parents: map<Coord, Coord>,
                           queue: seq<Node>) {
    && (forall c {:trigger ParentOk(walls, visited, parents, c, visited[c])} ::
          c in visited && c != target ==> ParentOk(walls, visited, parents, c, visited[c]))
    && (forall m {:trigger ParentOk(walls, visited, parents, m.Coordinates(), m.distance)} ::
          m in queue && m.Coordinates() != target ==> ParentOk(walls, visited, parents, m.Coordinates(), m.distance))
  }

  /**
   * The nodes expand_heatmap puts at the front of the queue list for the
   * cells of ns that are not in skip (visited or already pending), each at d
   * plus the edge cost from c: the node of the last such cell comes first.
   */
  function Offers(ns: seq<Coord>, skip: set<Coord>, c: Coord, d: real): seq<Node>
    decreases |ns|
  {
    if ns == [] then []
    else
      var n := ns[|ns| - 1];
      var rest := Offers(ns[..|ns| - 1], skip, c, d);
      if n in skip then rest else [Node(n.0, n.1, d + StepCost(c, n))] + rest
  }

  /** A node is offered exactly when its cell is listed and not skipped, and it is offered at d plus the edge cost. */
  lemma {:induction false} OffersMember(ns: seq<Coord>, skip: set<Coord>, c: Coord, d: real, m: Node)
    ensures m in Offers(ns, skip, c, d) <==>
              m.Coordinates() in ns && m.Coordinates() !in skip && m.distance == d + StepCost(c, m.Coordinates())
    decreases |ns|
  {
    if ns != [] {
      var ns' := ns[..|ns| - 1];
      OffersMember(ns', skip, c, d, m);
      assert ns == ns' + [ns[|ns| - 1]];
    }
  }

  /** Offers lists each cell at most once when the neighbour list does. */
  lemma {:induction false} OffersDistinct(ns: seq<Coord>, skip: set<Coord>, c: Coord, d: real)
    requires forall i, j :: 0 <= i < j < |ns| ==> ns[i] != ns[j]
    ensures DistinctCoords(Offers(ns, skip, c, d))
    decreases |ns|
  {
    if ns != [] {
      var ns' := ns[..|ns| - 1];
      var n := ns[|ns| - 1];
      OffersDistinct(ns', skip, c, d);
      var rest := Offers(ns', skip, c, d);
      if n !in skip {
        forall m | m in rest
          ensures m.Coordinates() != n
        {
          OffersMember(ns', skip, c, d, m);
        }
        var all := [Node(n.0, n.1, d + StepCost(c, n))] + rest;
        forall i, j | 0 <= i < j < |all|
          ensures all[i].Coordinates() != all[j].Coordinates()
        {
          if i == 0 {
            assert all[j] in rest;
          } else {
            assert all[i] == rest[i - 1] && all[j] == rest[j - 1];
          }
        }
      }
    }
  }

  /** A cell outside the list makes no difference to what is skipped. */
  lemma {:induction false} OffersIgnore(ns: seq<Coord>, skip: set<Coord>, x: Coord, c: Coord, d: real)
    requires x !in ns
    ensures Offers(ns, skip + {x}, c, d) == Offers(ns, skip, c, d)
    ensures Offers(ns, skip - {x}, c, d) == Offers(ns, skip, c, d)
    decreases |ns|
  {
    if ns != [] {
      assert ns[|ns| - 1] in ns;
      assert forall y :: y in ns[..|ns| - 1] ==> y in ns;
      OffersIgnore(ns[..|ns| - 1], skip, x, c, d);
    }
  }

  /** One more neighbour offered: its node goes in front of the earlier offers unless its cell is skipped. */
  lemma OffersSnoc(ns: seq<Coord>, n: Coord, skip: set<Coord>, c: Coord, d: real)
    ensures Offers(ns + [n], skip, c, d) ==
              if n in skip then Offers(ns, skip, c, d) else [Node(n.0, n.1, d + StepCost(c, n))] + Offers(ns, skip, c, d)
  {
    assert (ns + [n])[..|ns|] == ns;
  }

  /**
   * The offered nodes leave the queue after every node already waiting, and
   * in neighbour order: the node of a later neighbour leaves after those of
   * the earlier ones.
   */
  lemma OffersLeaveInOrder(ns: seq<Coord>, n: Coord, skip: set<Coord>, c: Coord, d: real, q: seq<Node>)
    ensures Reversed(Offers(ns, skip, c, d) + q) == Reversed(q) + Reversed(Offers(ns, skip, c, d))
    ensures Reversed(Offers(ns + [n], skip, c, d)) ==
              if n in skip then Reversed(Offers(ns, skip, c, d))
              else Reversed(Offers(ns, skip, c, d)) + [Node(n.0, n.1, d + StepCost(c, n))]
  {
    ReversedAppend(Offers(ns, skip, c, d), q);
    OffersSnoc(ns, n, skip, c, d);
    ReversedCons(Node(n.0, n.1, d + StepCost(c, n)), Offers(ns, skip, c, d));
  }

  /** The distance a visited cell keeps after a shorter candidate is offered (expand_heatmap's else branch). */
  function Lowered(current: real, candidate: real): (r: real)
    ensures r <= current && (r == current || r == candidate)
    ensures r == current <==> current <= candidate
  {
    if current > candidate then candidate else current
  }

  /** Every cell of the grid. */
  ghost function AllCells(): set<Coord> {
    set x, y | 0 <= x < N && 0 <= y < N :: (x, y)
  }

  /** The passable cells of the grid. */
  ghost function FreeCells(walls: set<Coord>): set<Coord> {
    AllCells() - walls
  }

  /**
   * What a heatmap layer holds for a target: 0 at every cell not reachable
   * from it; at a reachable cell, the truncated cost of some route from the
   * target, which is at least the Chebyshev distance.
   */
  ghost predicate LayerCell(walls: set<Coord>, target: Coord, c: Coord, v: int) {
    if Reachable(walls, target, c) then
      v >= Chebyshev(target, c) && exists p :: IsRoute(walls, target, c, p) && RouteCost(p).Floor == v
    else
      v == 0
  }

  /** Some cell one step from c holds a strictly smaller value in the layer. */
  ghost predicate Descends(walls: set<Coord>, layer: array2<int>, c: Coord)
    reads layer
    requires WorldShaped(layer)
  {
    exists p :: Step(walls, c, p) && LayerAt(layer, p) < LayerAt(layer, c)
  }

  /**
   * A heatmap layer for the target: grid-shaped, 0 at the target, and
   * LayerCell everywhere; when the target is passable, every other reachable
   * cell has a neighbour with a smaller value, so following the smallest
   * neighbour leads to the target.
   */
  ghost predicate LayerFor(walls: set<Coord>, target: Coord, layer: array2<int>)
    reads layer
  {
    && WorldShaped(layer) && InBounds(target) && layer[target.0, target.1] == 0
    && (forall x, y {:trigger LayerCell(walls, target, (x, y), layer[x, y])} ::
          0 <= x < N && 0 <= y < N ==> LayerCell(walls, target, (x, y), layer[x, y]))
    && (target !in walls ==>
          forall c :: InBounds(c) && c != target && Reachable(walls, target, c) ==> Descends(walls, layer, c))
  }

  /** The layers built so far, one for each of the first |tensor| targets, each a LayerFor its target. */
  ghost predicate LayersFor(walls: set<Coord>, targets: seq<Coord>, tensor: seq<array2<int>>)
    reads set l | l in tensor
  {
    |tensor| <= |targets| && forall j :: 0 <= j < |tensor| ==> LayerFor(walls, targets[j], tensor[j])
  }

  lemma LayersForSnoc(walls: set<Coord>, targets: seq<Coord>, tensor: seq<array2<int>>, layer: array2<int>)
    requires LayersFor(walls, targets, tensor) && |tensor| < |targets|
    requires LayerFor(walls, targets[|tensor|], layer)
    ensures LayersFor(walls, targets, tensor + [layer])
  {
  }

  /** The target cells of the buildings, in building order (Pathfinder.targets). */
  const Targets: seq<Coord> := [
    (640, 510), (630, 460), (710, 560), (710, 450), (740, 385), (650, 320),
    (640, 380), (560, 340), (580, 440), (570, 500), (540, 570), (770, 310),
    (730, 540), (350, 560), (380, 540), (310, 610), (310, 570), (310, 530),
    (470, 730), (590, 700), (560, 630), (320, 150), (410, 130), (400, 300),
    (260, 320), (370, 360), (650, 630), (280, 470), (450, 600), (540, 700)
  ]

  /** There are 30 targets, all inside the grid. */
  lemma TargetsInBounds()
    ensures |Targets| == 30
    ensures forall i :: 0 <= i < |Targets| ==> InBounds(Targets[i])
  {
  }

  /** Marking the dequeued node visited keeps the bookkeeping. */
  lemma VisitPreserves(walls: set<Coord>, target: Coord, visited: map<Coord, real>, routes: map<Coord, seq<Coord>>,
                       queue: seq<Node>, pending: set<Coord>, c: Coord, d: real)
    requires c !in visited && c !in pending
    requires SearchState(walls, target, visited, routes, queue, pending + {c})
    requires CellOk(walls, target, c) && Recorded(walls, target, routes, c, d)
    requires forall n :: n in queue ==> n.Coordinates() in pending
    ensures SearchState(walls, target, visited[c := d], routes, queue, pending)
  {
  }

  /** Enqueueing an unseen neighbour n of a visited cell c, at c's distance plus the edge cost, keeps the bookkeeping. */
  lemma EnqueuePreserves(walls: set<Coord>, target: Coord, visited: map<Coord, real>, routes: map<Coord, seq<Coord>>,
                         queue: seq<Node>, pending: set<Coord>, c: Coord, n: Coord)
    requires n !in visited && n !in pending && c in visited && c in routes && Step(walls, c, n)
    requires SearchState(walls, target, visited, routes, queue, pending)
    ensures SearchState(walls, target, visited, routes[n := routes[c] + [n]],
                        [Node(n.0, n.1, visited[c] + StepCost(c, n))] + queue, pending + {n})
  {
    assert Recorded(walls, target, routes, c, visited[c]);
    RouteExtend(walls, target, c, routes[c], n);
    var routes' := routes[n := routes[c] + [n]];
    forall m | m in queue
      ensures Recorded(walls, target, routes', m.Coordinates(), m.distance)
    {
      assert Recorded(walls, target, routes, m.Coordinates(), m.distance);
    }
    forall v | v in visited
      ensures Recorded(walls, target, routes', v, visited[v])
    {
      assert Recorded(walls, target, routes, v, visited[v]);
    }
  }

  /** Lowering a visited neighbour n to the cost of the route through the visited cell c keeps the bookkeeping. */
  lemma LowerPreserves(walls: set<Coord>, target: Coord, visited: map<Coord, real>, routes: map<Coord, seq<Coord>>,
                       queue: seq<Node>, pending: set<Coord>, c: Coord, n: Coord)
    requires n in visited && c in visited && c in routes && Step(walls, c, n)
    requires SearchState(walls, target, visited, routes, queue, pending)
    ensures SearchState(walls, target, visited[n := visited[c] + StepCost(c, n)], routes[n := routes[c] + [n]],
                        queue, pending)
  {
    assert Recorded(walls, target, routes, c, visited[c]);
    RouteExtend(walls, target, c, routes[c], n);
    var routes' := routes[n := routes[c] + [n]];
    forall m | m in queue
      ensures Recorded(walls, target, routes', m.Coordinates(), m.distance)
    {
      assert Recorded(walls, target, routes, m.Coordinates(), m.distance);
    }
    forall v | v in visited && v != n
      ensures Recorded(walls, target, routes', v, visited[v])
    {
      assert Recorded(walls, target, routes, v, visited[v]);
    }
  }

  /** Taking the last node off the queue: it has a parent unless it is the target, and the rest keep theirs. */
  lemma DequeueParented(walls: set<Coord>, target: Coord, visited: map<Coord, real>, parents: map<Coord, Coord>,
                        queue: seq<Node>)
    requires Parented(walls, target, visited, parents, queue) && |queue| > 0
    ensures Parented(walls, target, visited, parents, queue[..|queue| - 1])
    ensures var node := queue[|queue| - 1];
            node.Coordinates() != target ==> ParentOk(walls, visited, parents, node.Coordinates(), node.distance)
  {
    assert queue[|queue| - 1] in queue;
    assert forall n :: n in queue[..|queue| - 1] ==> n in queue;
  }

  /** Marking an unvisited cell visited with a distance its parent supports keeps every parent. */
  lemma VisitParented(walls: set<Coord>, target: Coord, visited: map<Coord, real>, parents: map<Coord, Coord>,
                      queue: seq<Node>, c: Coord, d: real)
    requires c !in visited && Parented(walls, target, visited, parents, queue)
    requires c != target ==> ParentOk(walls, visited, parents, c, d)
    ensures Parented(walls, target, visited[c := d], parents, queue)
  {
    var visited' := visited[c := d];
    forall x | x in visited && x != target
      ensures ParentOk(walls, visited', parents, x, visited'[x])
    {
      assert ParentOk(walls, visited, parents, x, visited[x]);
    }
    forall m | m in queue && m.Coordinates() != target
      ensures ParentOk(walls, visited', parents, m.Coordinates(), m.distance)
    {
      assert ParentOk(walls, visited, parents, m.Coordinates(), m.distance);
    }
  }

  /** Enqueueing a new cell n from the visited cell c makes c its parent, and keeps every other parent. */
  lemma EnqueueParented(walls: set<Coord>, target: Coord, visited: map<Coord, real>, parents: map<Coord, Coord>,
                        queue: seq<Node>, pending: set<Coord>, c: Coord, n: Coord)
    requires c in visited && n !in visited && n !in pending && Step(walls, c, n)
    requires forall m :: m in queue ==> m.Coordinates() in pending
    requires Parented(walls, target, visited, parents, queue)
    ensures Parented(walls, target, visited, parents[n := c],
                     [Node(n.0, n.1, visited[c] + StepCost(c, n))] + queue)
  {
    var parents' := parents[n := c];
    forall x | x in visited && x != target
      ensures ParentOk(walls, visited, parents', x, visited[x])
    {
      assert ParentOk(walls, visited, parents, x, visited[x]);
    }
    forall m | m in queue && m.Coordinates() != target
      ensures ParentOk(walls, visited, parents', m.Coordinates(), m.distance)
    {
      assert ParentOk(walls, visited, parents, m.Coordinates(), m.distance);
    }
  }

  /** Lowering the visited cell n through the visited cell c makes c its parent; cells whose parent is n keep it. */
  lemma LowerParented(walls: set<Coord>, target: Coord, visited: map<Coord, real>, parents: map<Coord, Coord>,
                      queue: seq<Node>, pending: set<Coord>, c: Coord, n: Coord)
    requires c in visited && n in visited && n !in pending && Step(walls, c, n)
    requires forall m :: m in queue ==> m.Coordinates() in pending
    requires visited[n] > visited[c] + StepCost(c, n)
    requires Parented(walls, target, visited, parents, queue)
    ensures Parented(walls, target, visited[n := visited[c] + StepCost(c, n)], parents[n := c], queue)
  {
    var visited', parents' := visited[n := visited[c] + StepCost(c, n)], parents[n := c];
    forall x | x in visited && x != target && x != n
      ensures ParentOk(walls, visited', parents', x, visited'[x])
    {
      assert ParentOk(walls, visited, parents, x, visited[x]);
    }
    forall m | m in queue && m.Coordinates() != target
      ensures ParentOk(walls, visited', parents', m.Coordinates(), m.distance)
    {
      assert ParentOk(walls, visited, parents, m.Coordinates(), m.distance);
    }
  }

  /** The neighbour list of a cell holds, once each, exactly the cells one step away. */
  lemma NeighborsAreSteps(world: array2<int>, walls: set<Coord>, c: Coord)
    requires WorldShaped(world) && walls == WallSet(world)
    ensures forall n :: n in Neighbors(world, c) <==> Step(walls, c, n)
    ensures forall i, j :: 0 <= i < j < |Neighbors(world, c)| ==> Neighbors(world, c)[i] != Neighbors(world, c)[j]
  {
    NeighborsSpec(world, c);
  }

  /** After the current cell's neighbours have all been handled, the visited set is closed again. */
  lemma ClosedAfterExpand(walls: set<Coord>, visited: set<Coord>, pending: set<Coord>, pending': set<Coord>, c: Coord)
    requires Closed(walls, visited, pending + {c})
    requires pending' == pending + (Around(walls, c) - (visited + {c}))
    ensures pending' == pending + (Around(walls, c) - visited)
    ensures Closed(walls, visited + {c}, pending')
  {
    assert c !in Around(walls, c);
  }

  /** Taking the oldest node off the queue: it is pending, recorded, and the rest of the queue keeps the bookkeeping. */
  lemma DequeuePreserves(walls: set<Coord>, target: Coord, visited: map<Coord, real>, routes: map<Coord, seq<Coord>>,
                         queue: seq<Node>, pending: set<Coord>)
    requires SearchState(walls, target, visited, routes, queue, pending) && |queue| > 0
    ensures SearchState(walls, target, visited, routes, queue[..|queue| - 1], pending)
    ensures var node := queue[|queue| - 1];
            node.Coordinates() in pending && node.Coordinates() !in visited &&
            CellOk(walls, target, node.Coordinates()) && Recorded(walls, target, routes, node.Coordinates(), node.distance)
  {
    assert queue[|queue| - 1] in queue;
    assert forall n :: n in queue[..|queue| - 1] ==> n in queue;
  }

  /** When nothing is pending, the visited cells are exactly the cells reachable from the target. */
  lemma {:induction false} VisitedIsReachable(walls: set<Coord>, target: Coord, visited: map<Coord, real>,
                                              routes: map<Coord, seq<Coord>>)
    requires SearchState(walls, target, visited, routes, [], {}) && Closed(walls, visited.Keys, {})
    requires target in visited
    ensures forall c :: c in visited <==> Reachable(walls, target, c)
  {
    forall c
      ensures c in visited <==> Reachable(walls, target, c)
    {
      if c in visited {
        assert Recorded(walls, target, routes, c, visited[c]);
        assert IsRoute(walls, target, c, routes[c]);
      }
      if Reachable(walls, target, c) {
        var p :| IsRoute(walls, target, c, p);
        ClosedHoldsRoute(walls, target, visited.Keys, c, p);
      }
    }
  }

  /** The visited cells of a search lie in the grid or are the target. */
  lemma VisitedWithin(walls: set<Coord>, target: Coord, visited: map<Coord, real>, routes: map<Coord, seq<Coord>>,
                      queue: seq<Node>, pending: set<Coord>)
    requires SearchState(walls, target, visited, routes, queue, pending)
    ensures visited.Keys <= AllCells() + {target}
    ensures visited.Keys <= FreeCells(walls) + {target}
  {
    forall c | c in visited
      ensures c in FreeCells(walls) + {target}
    {
      assert CellOk(walls, target, c);
    }
  }

  /**
   * What create_heatmap returns about a finished search: the visited cells
   * are the reachable ones, each distance is at least the Chebyshev distance,
   * and no more cells were expanded than there are passable cells (plus the
   * target).
   */
  lemma SearchOutcome(walls: set<Coord>, target: Coord, visited: map<Coord, real>, routes: map<Coord, seq<Coord>>)
    requires SearchState(walls, target, visited, routes, [], {}) && Closed(walls, visited.Keys, {})
    requires target in visited
    ensures forall c :: c in visited <==> Reachable(walls, target, c)
    ensures forall c :: c in visited ==> visited[c] >= Chebyshev(target, c) as real
    ensures |visited.Keys| <= |FreeCells(walls)| + 1
  {
    VisitedIsReachable(walls, target, visited, routes);
    forall c | c in visited
      ensures visited[c] >= Chebyshev(target, c) as real
    {
      RecordedBound(walls, target, routes, c, visited[c]);
    }
    VisitedWithin(walls, target, visited, routes, [], {});
    SubsetCardinality(visited.Keys, FreeCells(walls) + {target});
  }

  /** A distance recorded for a cell is at least its Chebyshev distance from the target. */
  lemma RecordedBound(walls: set<Coord>, target: Coord, routes: map<Coord, seq<Coord>>, c: Coord, d: real)
    requires Recorded(walls, target, routes, c, d)
    ensures d >= Chebyshev(target, c) as real && d.Floor >= Chebyshev(target, c)
  {
    RouteCostBound(walls, target, c, routes[c]);
  }

  /** A step costs at least 1. */
  lemma StepCostAtLeastOne(a: Coord, b: Coord)
    requires Adjacent(a, b)
    ensures StepCost(a, b) >= 1.0
  {
  }

  /** Distances at least 1 apart truncate to different layers. */
  lemma FloorBelow(a: real, b: real)
    requires a + 1.0 <= b
    ensures a.Floor < b.Floor
  {
  }

  /**
   * In a finished search from a passable target, the parent of a visited
   * cell other than the target is a visited cell one step from it whose
   * distance truncates to a smaller layer.
   */
  lemma ParentDescends(walls: set<Coord>, target: Coord, visited: map<Coord, real>, routes: map<Coord, seq<Coord>>,
                       parents: map<Coord, Coord>, c: Coord)
    requires SearchState(walls, target, visited, routes, [], {}) && Parented(walls, target, visited, parents, [])
    requires target !in walls && c in visited && c != target
    ensures c in parents && parents[c] in visited && Step(walls, c, parents[c])
    ensures visited[parents[c]].Floor < visited[c].Floor
  {
    assert ParentOk(walls, visited, parents, c, visited[c]);
    var p := parents[c];
    assert CellOk(walls, target, p);
    StepCostAtLeastOne(p, c);
    FloorBelow(visited[p], visited[c]);
  }

  /** A layer holding the truncated distances of a finished search at its visited cells, and 0 elsewhere, is a LayerFor. */
  lemma {:induction false} LayerOfSearch(walls: set<Coord>, target: Coord, visited: map<Coord, real>,
                                         routes: map<Coord, seq<Coord>>, parents: map<Coord, Coord>,
                                         layer: array2<int>)
    requires SearchState(walls, target, visited, routes, [], {}) && Closed(walls, visited.Keys, {})
    requires Parented(walls, target, visited, parents, [])
    requires target in visited && visited[target] == 0.0
    requires WorldShaped(layer)
    requires forall x, y :: 0 <= x < N && 0 <= y < N ==>
               layer[x, y] == if (x, y) in visited then visited[(x, y)].Floor else 0
    ensures LayerFor(walls, target, layer)
  {
    VisitedIsReachable(walls, target, visited, routes);
    forall x, y | 0 <= x < N && 0 <= y < N
      ensures LayerCell(walls, target, (x, y), layer[x, y])
    {
      var c := (x, y);
      if c in visited {
        RecordedBound(walls, target, routes, c, visited[c]);
        assert IsRoute(walls, target, c, routes[c]) && RouteCost(routes[c]).Floor == layer[x, y];
      }
    }
    if target !in walls {
      forall c | InBounds(c) && c != target && Reachable(walls, target, c)
        ensures Descends(walls, layer, c)
      {
        ParentDescends(walls, target, visited, routes, parents, c);
        var p := parents[c];
        assert CellOk(walls, target, p);
        assert LayerAt(layer, p) < LayerAt(layer, c);
      }
    }
  }

  /** Relaxing one more neighbour n adds n to the pending set exactly when it is not visited. */
  lemma PendingSnoc(pending: set<Coord>, done: set<Coord>, visited: set<Coord>, n: Coord)
    ensures pending + ((done + {n}) - visited) == (pending + (done - visited)) + (if n in visited then {} else {n})
  {
  }

  /** A set holding exactly the listed neighbours of c is the set of cells one step from c. */
  lemma NeighborsAround(walls: set<Coord>, c: Coord, neighbors: seq<Coord>, done: set<Coord>)
    requires forall n :: n in neighbors <==> Step(walls, c, n)
    requires forall x :: x in done <==> x in neighbors
    ensures done == Around(walls, c)
  {
  }

  lemma PrefixSnoc<T>(s: seq<T>, i: int)
    requires 0 <= i < |s|
    ensures s[..i + 1] == s[..i] + [s[i]]
  {
  }

  lemma {:induction false} SubsetCardinality<T>(a: set<T>, b: set<T>)
    requires a <= b
    ensures |a| <= |b|
    decreases a
  {
    if a != {} {
      var x :| x in a;
      SubsetCardinality(a - {x}, b - {x});
    }
  }

  /** The value a layer holds at a cell of the grid (0 outside it). */
  function LayerAt(layer: array2<int>, c: Coord): int
    reads layer
    requires WorldShaped(layer)
  {
    if InBounds(c) then layer[c.0, c.1] else 0
  }

  /** numpy's reading of an index into the heatmap tensor: a negative index counts from the end. */
  function TensorIndex(i: int, count: int): (k: int)
    requires -count <= i < count
    ensures 0 <= k < count && (k == i || k == i + count)
  {
    if i < 0 then i + count else i
  }

  /**
   * On a layer for a passable target, a reachable cell other than the target
   * has a listed neighbour with a smaller value.
   */
  lemma DescentStep(world: array2<int>, walls: set<Coord>, target: Coord, layer: array2<int>, c: Coord)
    requires WorldShaped(world) && walls == WallSet(world) && LayerFor(walls, target, layer)
    requires target !in walls && c != target && Reachable(walls, target, c)
    ensures exists j :: 0 <= j < |Neighbors(world, c)| && LayerAt(layer, Neighbors(world, c)[j]) < LayerAt(layer, c)
  {
    var p :| IsRoute(walls, target, c, p);
    assert InBounds(c);
    assert Descends(walls, layer, c);
    var q :| Step(walls, c, q) && LayerAt(layer, q) < LayerAt(layer, c);
    NeighborsAreSteps(world, walls, c);
    var j :| 0 <= j < |Neighbors(world, c)| && Neighbors(world, c)[j] == q;
  }

  /**
   * On a layer for a passable target, the offset to a smallest neighbour of
   * a reachable cell other than the target leads to a smaller value.
   */
  lemma DirectionDescends(world: array2<int>, walls: set<Coord>, target: Coord, layer: array2<int>, c: Coord,
                          direction: (int, int), k: int)
    requires WorldShaped(world) && walls == WallSet(world) && LayerFor(walls, target, layer)
    requires target !in walls && c != target && Reachable(walls, target, c)
    requires var ns := Neighbors(world, c);
             ns == [] ||
             (0 <= k < |ns| && direction == (ns[k].0 - c.0, ns[k].1 - c.1) &&
              forall j :: 0 <= j < |ns| ==> LayerAt(layer, ns[k]) <= LayerAt(layer, ns[j]))
    ensures Neighbors(world, c) != []
    ensures LayerAt(layer, (c.0 + direction.0, c.1 + direction.1)) < LayerAt(layer, c)
  {
    DescentStep(world, walls, target, layer, c);
    var ns := Neighbors(world, c);
    assert (c.0 + direction.0, c.1 + direction.1) == ns[k];
  }

  class Pathfinder {
    /** Pathfinder.world_array. */
    const world: array2<int>
    /** The wall cells of world_array. */
    ghost const walls: set<Coord>
    /** Pathfinder.targets. */
    const targets: seq<Coord>
    /** Pathfinder.heatmap_tensor, one layer per target. */
    var heatmapTensor: seq<array2<int>>
    /** Pathfinder.visited: the distance of each visited coordinate (see README on node identity). */
    var visited: map<Coord, real>
    /** A route from the target for every visited or pending coordinate. */
    ghost var routes: map<Coord, seq<Coord>>
    /** The cell whose expansion last set the distance of each visited or pending coordinate. */
    ghost var parents: map<Coord, Coord>

    /** What __init__ leaves in place: the world array, its wall cells and one heatmap layer per target. */
    ghost predicate Valid()
      reads this, world, set l | l in heatmapTensor
    {
      WorldShaped(world) && walls == WallSet(world) && |heatmapTensor| == |targets| &&
      LayersFor(walls, targets, heatmapTensor)
    }

    /**
     * Pathfinder.__init__ without precomputed heatmaps: builds the world
     * array from the buildings, then one heatmap per target, from a target
     * node at distance 0.
     */
    constructor (buildings: seq<seq<Wall>>)
      requires PixelsIndexable(buildings)
      ensures WorldShaped(world) && walls == WallSet(world)
      ensures forall x, y :: 0 <= x < N && 0 <= y < N ==>
                world[x, y] == if OnBorder((x, y)) || (x, y) in BuildingCells(buildings) then 1 else 0
      ensures forall c :: c in walls <==> InBounds(c) && (OnBorder(c) || c in BuildingCells(buildings))
      ensures targets == Targets
      ensures Valid()
    {
      var w := CreateWorldArray(buildings);
      world := w;
      walls := WallSet(w);
      targets := Targets;
      heatmapTensor := [];
      visited := map[];
      routes := map[];
      parents := map[];
      new;
      TargetsInBounds();
      for i := 0 to |targets|
        modifies this
        invariant |heatmapTensor| == i && LayersFor(walls, targets, heatmapTensor)
      {
        AppendHeatmap();
      }
    }

    /** One round of __init__'s loop: the heatmap of the next target, from a node at distance 0. */
    method AppendHeatmap()
      requires WorldShaped(world) && walls == WallSet(world)
      requires forall k :: 0 <= k < |targets| ==> InBounds(targets[k])
      requires |heatmapTensor| < |targets| && LayersFor(walls, targets, heatmapTensor)
      modifies this`visited, this`routes, this`parents, this`heatmapTensor
      ensures |heatmapTensor| == |old(heatmapTensor)| + 1 && LayersFor(walls, targets, heatmapTensor)
      ensures heatmapTensor[..|old(heatmapTensor)|] == old(heatmapTensor)
      ensures fresh(heatmapTensor[|old(heatmapTensor)|])
    {
      var target := targets[|heatmapTensor|];
      var targetNode := Node(target.0, target.1, 0.0);
      var heatmap;
      ghost var expansions;
      heatmap, expansions := CreateHeatmap(targetNode);
      LayersForSnoc(walls, targets, heatmapTensor, heatmap);
      heatmapTensor := heatmapTensor + [heatmap];
    }

    /**
     * Pathfinder.create_heatmap: runs the wavefront from the target node
     * until the queue is empty, then writes the truncated distance of every
     * visited cell into a zero layer. The ghost result counts the expansions.
     */
    method CreateHeatmap(targetNode: Node) returns (heatmap: array2<int>, ghost expansions: nat)
      requires WorldShaped(world) && walls == WallSet(world)
      requires InBounds(targetNode.Coordinates()) && targetNode.distance == 0.0
      modifies this`visited, this`routes, this`parents
      ensures fresh(heatmap) && WorldShaped(heatmap)
      ensures forall c :: c in visited <==> Reachable(walls, targetNode.Coordinates(), c)
      ensures forall c :: c in visited ==>
                Recorded(walls, targetNode.Coordinates(), routes, c, visited[c]) &&
                visited[c] >= Chebyshev(targetNode.Coordinates(), c) as real
      ensures targetNode.Coordinates() in visited && visited[targetNode.Coordinates()] == 0.0
      ensures forall x, y :: 0 <= x < N && 0 <= y < N ==>
                heatmap[x, y] == if (x, y) in visited then visited[(x, y)].Floor else 0
      ensures LayerFor(walls, targetNode.Coordinates(), heatmap)
      ensures expansions == |visited.Keys| && expansions <= |FreeCells(walls)| + 1
    {
      var target := targetNode.Coordinates();
      var queue := new Queue(targetNode);
      visited := map[];
      routes := map[target := [target]];
      parents := map[];
      expansions := Wavefront(queue, targetNode);
      ghost var finalVisited, finalRoutes, finalParents := visited, routes, parents;
      heatmap := FillHeatmap(target);
      LayerOfSearch(walls, target, finalVisited, finalRoutes, finalParents, heatmap);
      SearchOutcome(walls, target, finalVisited, finalRoutes);
    }

    /** The main loop of create_heatmap: pops and expands nodes until the queue is empty. */
    method Wavefront(queue: Queue, targetNode: Node) returns (ghost expansions: nat)
      requires WorldShaped(world) && walls == WallSet(world)
      requires InBounds(targetNode.Coordinates()) && targetNode.distance == 0.0
      requires queue.Valid() && queue.queue == [targetNode] && queue.enqueuedCoordinates == {targetNode.Coordinates()}
      requires visited == map[] && routes == map[targetNode.Coordinates() := [targetNode.Coordinates()]]
      requires parents == map[]
      modifies this`visited, this`routes, this`parents, queue
      ensures queue.Valid() && queue.queue == [] && queue.enqueuedCoordinates == {}
      ensures SearchState(walls, targetNode.Coordinates(), visited, routes, [], {})
      ensures Parented(walls, targetNode.Coordinates(), visited, parents, [])
      ensures Closed(walls, visited.Keys, {})
      ensures targetNode.Coordinates() in visited && visited[targetNode.Coordinates()] == 0.0
      ensures expansions == |visited.Keys|
    {
      var target := targetNode.Coordinates();
      expansions := 0;
      var more := queue.HasElements();
      while more
        invariant queue.Valid()
        invariant more <==> queue.queue != []
        invariant SearchState(walls, target, visited, routes, queue.queue, queue.enqueuedCoordinates)
        invariant Parented(walls, target, visited, parents, queue.queue)
        invariant Closed(walls, visited.Keys, queue.enqueuedCoordinates)
        invariant (visited == map[] && queue.queue == [targetNode] && queue.enqueuedCoordinates == {target})
                  || (target in visited && visited[target] == 0.0)
        invariant expansions == |visited.Keys|
        decreases (AllCells() + {target}) - visited.Keys
      {
        ExpandNext(queue, targetNode);
        expansions := expansions + 1;
        more := queue.HasElements();
      }
    }

    /** One round of the main loop of create_heatmap: the last node of the queue is popped and expanded. */
    method ExpandNext(queue: Queue, targetNode: Node)
      requires WorldShaped(world) && walls == WallSet(world) && queue.Valid() && queue.queue != []
      requires SearchState(walls, targetNode.Coordinates(), visited, routes, queue.queue, queue.enqueuedCoordinates)
      requires Closed(walls, visited.Keys, queue.enqueuedCoordinates)
      requires (visited == map[] && queue.queue == [targetNode] && queue.enqueuedCoordinates == {targetNode.Coordinates()}
                && targetNode.distance == 0.0)
               || (targetNode.Coordinates() in visited && visited[targetNode.Coordinates()] == 0.0)
      requires Parented(walls, targetNode.Coordinates(), visited, parents, queue.queue)
      modifies this`visited, this`routes, this`parents, queue
      ensures queue.Valid()
      ensures var node := old(queue.queue)[|old(queue.queue)| - 1];
              var c := node.Coordinates();
              && visited.Keys == old(visited).Keys + {c} && visited[c] == node.distance
              && (forall x :: x in old(visited) ==>
                    visited[x] == if Step(walls, c, x) then Lowered(old(visited)[x], node.distance + StepCost(c, x))
                                  else old(visited)[x])
              && queue.queue == Offers(Neighbors(world, c), old(visited).Keys + old(queue.enqueuedCoordinates),
                                       c, node.distance)
                                + old(queue.queue)[..|old(queue.queue)| - 1]
      ensures SearchState(walls, targetNode.Coordinates(), visited, routes, queue.queue, queue.enqueuedCoordinates)
      ensures Parented(walls, targetNode.Coordinates(), visited, parents, queue.queue)
      ensures Closed(walls, visited.Keys, queue.enqueuedCoordinates)
      ensures targetNode.Coordinates() in visited && visited[targetNode.Coordinates()] == 0.0
      ensures old(visited).Keys < visited.Keys <= AllCells() + {targetNode.Coordinates()}
      ensures |visited.Keys| == |old(visited).Keys| + 1
    {
      ghost var target := targetNode.Coordinates();
      ghost var before := visited.Keys;
      DequeuePreserves(walls, target, visited, routes, queue.queue, queue.enqueuedCoordinates);
      DequeueParented(walls, target, visited, parents, queue.queue);
      ghost var pending := queue.enqueuedCoordinates;
      var currentNode := queue.RemoveNode();
      ghost var c := currentNode.Coordinates();
      assert pending == queue.enqueuedCoordinates + {c};
      ExpandHeatmap(queue, currentNode, target);
      NeighborsSpec(world, c);
      assert before + (pending - {c}) == (before + pending) - {c};
      OffersIgnore(Neighbors(world, c), before + pending, c, c, currentNode.distance);
      assert currentNode.Coordinates() in visited.Keys - before;
      VisitedWithin(walls, target, visited, routes, queue.queue, queue.enqueuedCoordinates);
    }

    /** The last lines of create_heatmap: a zero layer holding the truncated distance of every visited cell. */
    method FillHeatmap(ghost target: Coord) returns (heatmap: array2<int>)
      requires InBounds(target) && forall c :: c in visited ==> CellOk(walls, target, c)
      ensures fresh(heatmap) && WorldShaped(heatmap)
      ensures forall x, y :: 0 <= x < N && 0 <= y < N ==>
                heatmap[x, y] == if (x, y) in visited then visited[(x, y)].Floor else 0
    {
      heatmap := new int[N, N]((i, j) => 0);
      var remaining := visited.Keys;
      while remaining != {}
        invariant remaining <= visited.Keys
        invariant forall x, y :: 0 <= x < N && 0 <= y < N ==>
                    heatmap[x, y] == if (x, y) in visited && (x, y) !in remaining then visited[(x, y)].Floor else 0
        decreases remaining
      {
        var c :| c in remaining;
        assert CellOk(walls, target, c);
        heatmap[c.0, c.1] := visited[c].Floor;
        remaining := remaining - {c};
      }
    }

    /**
     * Pathfinder.expand_heatmap: marks the current node visited, then for each
     * neighbour either enqueues it with the current distance plus the edge
     * cost (unvisited), or lowers its distance to that value when this is
     * shorter (visited; it is not enqueued again).
     */
    method ExpandHeatmap(queue: Queue, currentNode: Node, ghost target: Coord)
      requires WorldShaped(world) && walls == WallSet(world) && queue.Valid()
      requires currentNode.Coordinates() !in visited && currentNode.Coordinates() !in queue.enqueuedCoordinates
      requires SearchState(walls, target, visited, routes, queue.queue,
                           queue.enqueuedCoordinates + {currentNode.Coordinates()})
      requires CellOk(walls, target, currentNode.Coordinates())
      requires Recorded(walls, target, routes, currentNode.Coordinates(), currentNode.distance)
      requires Closed(walls, visited.Keys, queue.enqueuedCoordinates + {currentNode.Coordinates()})
      requires (visited == map[] && currentNode.Coordinates() == target && currentNode.distance == 0.0)
               || (target in visited && visited[target] == 0.0)
      requires Parented(walls, target, visited, parents, queue.queue)
      requires currentNode.Coordinates() != target ==>
                 ParentOk(walls, visited, parents, currentNode.Coordinates(), currentNode.distance)
      modifies this`visited, this`routes, this`parents, queue
      ensures queue.Valid()
      ensures queue.queue ==
                Offers(Neighbors(world, currentNode.Coordinates()), old(visited).Keys + old(queue.enqueuedCoordinates),
                       currentNode.Coordinates(), currentNode.distance)
                + old(queue.queue)
      ensures visited.Keys == old(visited).Keys + {currentNode.Coordinates()}
      ensures visited[currentNode.Coordinates()] == currentNode.distance
      ensures forall x :: x in old(visited) ==>
                visited[x] == if Step(walls, currentNode.Coordinates(), x)
                              then Lowered(old(visited)[x], currentNode.distance + StepCost(currentNode.Coordinates(), x))
                              else old(visited)[x]
      ensures queue.enqueuedCoordinates ==
                old(queue.enqueuedCoordinates) + (Around(walls, currentNode.Coordinates()) - old(visited).Keys)
      ensures SearchState(walls, target, visited, routes, queue.queue, queue.enqueuedCoordinates)
      ensures Parented(walls, target, visited, parents, queue.queue)
      ensures Closed(walls, visited.Keys, queue.enqueuedCoordinates)
      ensures target in visited && visited[target] == 0.0
    {
      var c := currentNode.Coordinates();
      var neighbors := GetNeighbors(world, c);
      NeighborsAreSteps(world, walls, c);
      ghost var v0, pending0 := visited.Keys, queue.enqueuedCoordinates;
      Visit(queue, currentNode, target);
      assert visited.Keys + pending0 == (v0 + pending0) + {c};
      assert c !in neighbors;
      OffersIgnore(neighbors, v0 + pending0, c, c, currentNode.distance);
      RelaxAll(queue, c, neighbors, currentNode.distance, target);
      ClosedAfterExpand(walls, v0, pending0, queue.enqueuedCoordinates, c);
    }

    /** expand_heatmap's first step: the current node's distance is recorded in visited. */
    method Visit(queue: Queue, currentNode: Node, ghost target: Coord)
      requires queue.Valid()
      requires currentNode.Coordinates() !in visited && currentNode.Coordinates() !in queue.enqueuedCoordinates
      requires SearchState(walls, target, visited, routes, queue.queue,
                           queue.enqueuedCoordinates + {currentNode.Coordinates()})
      requires CellOk(walls, target, currentNode.Coordinates())
      requires Recorded(walls, target, routes, currentNode.Coordinates(), currentNode.distance)
      requires Parented(walls, target, visited, parents, queue.queue)
      requires currentNode.Coordinates() != target ==>
                 ParentOk(walls, visited, parents, currentNode.Coordinates(), currentNode.distance)
      modifies this`visited
      ensures visited == old(visited)[currentNode.Coordinates() := currentNode.distance]
      ensures SearchState(walls, target, visited, routes, queue.queue, queue.enqueuedCoordinates)
      ensures Parented(walls, target, visited, parents, queue.queue)
    {
      var c := currentNode.Coordinates();
      VisitPreserves(walls, target, visited, routes, queue.queue, queue.enqueuedCoordinates, c, currentNode.distance);
      VisitParented(walls, target, visited, parents, queue.queue, c, currentNode.distance);
      visited := visited[c := currentNode.distance];
    }

    /** The loop of expand_heatmap over the neighbours of the current cell c, which is already visited at d. */
    method RelaxAll(queue: Queue, c: Coord, neighbors: seq<Coord>, d: real, ghost target: Coord)
      requires queue.Valid()
      requires SearchState(walls, target, visited, routes, queue.queue, queue.enqueuedCoordinates)
      requires c in visited && visited[c] == d
      requires forall n :: n in neighbors <==> Step(walls, c, n)
      requires forall i, j :: 0 <= i < j < |neighbors| ==> neighbors[i] != neighbors[j]
      requires target in visited && visited[target] == 0.0
      requires Parented(walls, target, visited, parents, queue.queue)
      modifies this`visited, this`routes, this`parents, queue
      ensures queue.Valid()
      ensures queue.queue ==
                Offers(neighbors, old(visited).Keys + old(queue.enqueuedCoordinates), c, d) + old(queue.queue)
      ensures visited.Keys == old(visited).Keys
      ensures forall x :: x in old(visited) ==>
                visited[x] == if Step(walls, c, x) then Lowered(old(visited)[x], d + StepCost(c, x))
                              else old(visited)[x]
      ensures queue.enqueuedCoordinates == old(queue.enqueuedCoordinates) + (Around(walls, c) - old(visited).Keys)
      ensures SearchState(walls, target, visited, routes, queue.queue, queue.enqueuedCoordinates)
      ensures Parented(walls, target, visited, parents, queue.queue)
      ensures target in visited && visited[target] == 0.0
    {
      ghost var v0 := visited;
      ghost var oldPending := queue.enqueuedCoordinates;
      ghost var q0 := queue.queue;
      ghost var done: set<Coord> := {};
      for i := 0 to |neighbors|
        invariant queue.Valid()
        invariant forall x :: x in done <==> x in neighbors[..i]
        invariant queue.queue == Offers(neighbors[..i], v0.Keys + oldPending, c, d) + q0
        invariant visited.Keys == v0.Keys
        invariant forall x :: x in v0 ==>
                    visited[x] == if x in done then Lowered(v0[x], d + StepCost(c, x)) else v0[x]
        invariant queue.enqueuedCoordinates == oldPending + (done - v0.Keys)
        invariant SearchState(walls, target, visited, routes, queue.queue, queue.enqueuedCoordinates)
        invariant Parented(walls, target, visited, parents, queue.queue)
        invariant target in visited && visited[target] == 0.0
      {
        var n := neighbors[i];
        PrefixSnoc(neighbors, i);
        assert n !in done && c !in neighbors;
        RelaxNext(queue, c, n, d, target, v0, oldPending, done, Offers(neighbors[..i], v0.Keys + oldPending, c, d), q0);
        OffersSnoc(neighbors[..i], n, v0.Keys + oldPending, c, d);
        done := done + {n};
      }
      assert neighbors[..|neighbors|] == neighbors;
      NeighborsAround(walls, c, neighbors, done);
    }

    /** One round of expand_heatmap's neighbour loop, stated against the cells done before it. */
    method RelaxNext(queue: Queue, c: Coord, n: Coord, d: real, ghost target: Coord,
                     ghost v0: map<Coord, real>, ghost oldPending: set<Coord>, ghost done: set<Coord>,
                     ghost front: seq<Node>, ghost q0: seq<Node>)
      requires queue.Valid() && queue.queue == front + q0
      requires SearchState(walls, target, visited, routes, queue.queue, queue.enqueuedCoordinates)
      requires c in v0 && v0[c] == d && c !in done && c != n && n !in done && Step(walls, c, n)
      requires visited.Keys == v0.Keys
      requires forall x :: x in v0 ==>
                 visited[x] == if x in done then Lowered(v0[x], d + StepCost(c, x)) else v0[x]
      requires queue.enqueuedCoordinates == oldPending + (done - v0.Keys)
      requires target in visited && visited[target] == 0.0
      requires Parented(walls, target, visited, parents, queue.queue)
      modifies this`visited, this`routes, this`parents, queue
      ensures queue.Valid()
      ensures queue.queue == (if n in v0.Keys + oldPending then front else [Node(n.0, n.1, d + StepCost(c, n))] + front) + q0
      ensures visited.Keys == v0.Keys
      ensures forall x :: x in v0 ==>
                visited[x] == if x in done + {n} then Lowered(v0[x], d + StepCost(c, x)) else v0[x]
      ensures queue.enqueuedCoordinates == oldPending + ((done + {n}) - v0.Keys)
      ensures SearchState(walls, target, visited, routes, queue.queue, queue.enqueuedCoordinates)
      ensures Parented(walls, target, visited, parents, queue.queue)
      ensures target in visited && visited[target] == 0.0
    {
      ghost var skipped := n in visited || n in queue.enqueuedCoordinates;
      assert skipped <==> n in v0.Keys + oldPending;
      Relax(queue, c, n, d, target);
      PendingSnoc(oldPending, done, v0.Keys, n);
      ConsAssoc(Node(n.0, n.1, d + StepCost(c, n)), front, q0);
    }

    /**
     * The body of expand_heatmap's loop for one neighbour n of the current
     * cell c: enqueue n at d plus the edge cost when it is unvisited (the
     * queue ignores it when already pending), or lower its visited distance
     * to that value when this is shorter.
     */
    method Relax(queue: Queue, c: Coord, n: Coord, d: real, ghost target: Coord)
      requires queue.Valid()
      requires SearchState(walls, target, visited, routes, queue.queue, queue.enqueuedCoordinates)
      requires c in visited && visited[c] == d && Step(walls, c, n)
      requires target in visited && visited[target] == 0.0
      requires Parented(walls, target, visited, parents, queue.queue)
      modifies this`visited, this`routes, this`parents, queue
      ensures queue.Valid()
      ensures queue.queue == if n in old(visited) || n in old(queue.enqueuedCoordinates) then old(queue.queue)
                             else [Node(n.0, n.1, d + StepCost(c, n))] + old(queue.queue)
      ensures visited.Keys == old(visited).Keys
      ensures forall x :: x in old(visited) && x != n ==> visited[x] == old(visited)[x]
      ensures n in old(visited) ==> visited[n] == Lowered(old(visited)[n], d + StepCost(c, n))
      ensures queue.enqueuedCoordinates == old(queue.enqueuedCoordinates) + (if n in old(visited) then {} else {n})
      ensures SearchState(walls, target, visited, routes, queue.queue, queue.enqueuedCoordinates)
      ensures Parented(walls, target, visited, parents, queue.queue)
      ensures target in visited && visited[target] == 0.0
    {
      if n !in visited {
        Offer(queue, c, n, d, target);
      } else {
        Lower(queue, c, n, d, target);
      }
    }

    /** The unvisited branch of the neighbour loop: n is offered to the queue at d plus the edge cost. */
    method Offer(queue: Queue, c: Coord, n: Coord, d: real, ghost target: Coord)
      requires queue.Valid()
      requires SearchState(walls, target, visited, routes, queue.queue, queue.enqueuedCoordinates)
      requires c in visited && visited[c] == d && Step(walls, c, n) && n !in visited
      requires Parented(walls, target, visited, parents, queue.queue)
      modifies this`routes, this`parents, queue
      ensures queue.Valid()
      ensures queue.queue == if n in old(queue.enqueuedCoordinates) then old(queue.queue)
                             else [Node(n.0, n.1, d + StepCost(c, n))] + old(queue.queue)
      ensures queue.enqueuedCoordinates == old(queue.enqueuedCoordinates) + {n}
      ensures SearchState(walls, target, visited, routes, queue.queue, queue.enqueuedCoordinates)
      ensures Parented(walls, target, visited, parents, queue.queue)
    {
      assert Recorded(walls, target, routes, c, visited[c]);
      var edge := DistanceToNeighbor(c, n).value;
      assert edge == StepCost(c, n);
      ghost var isNew := n !in queue.enqueuedCoordinates;
      if isNew {
        EnqueuePreserves(walls, target, visited, routes, queue.queue, queue.enqueuedCoordinates, c, n);
        EnqueueParented(walls, target, visited, parents, queue.queue, queue.enqueuedCoordinates, c, n);
      }
      queue.AddNode(Node(n.0, n.1, d + edge));
      if isNew {
        routes := routes[n := routes[c] + [n]];
        parents := parents[n := c];
      }
    }

    /** The visited branch of the neighbour loop: n's distance is lowered to d plus the edge cost when that is shorter. */
    method Lower(queue: Queue, c: Coord, n: Coord, d: real, ghost target: Coord)
      requires SearchState(walls, target, visited, routes, queue.queue, queue.enqueuedCoordinates)
      requires c in visited && visited[c] == d && Step(walls, c, n) && n in visited
      requires Parented(walls, target, visited, parents, queue.queue)
      requires target in visited && visited[target] == 0.0
      modifies this`visited, this`routes, this`parents
      ensures visited == old(visited)[n := Lowered(old(visited)[n], d + StepCost(c, n))]
      ensures SearchState(walls, target, visited, routes, queue.queue, queue.enqueuedCoordinates)
      ensures Parented(walls, target, visited, parents, queue.queue)
      ensures target in visited && visited[target] == 0.0
    {
      assert Recorded(walls, target, routes, c, visited[c]);
      var edge := DistanceToNeighbor(c, n).value;
      assert edge == StepCost(c, n);
      if visited[n] > d + edge {
        LowerPreserves(walls, target, visited, routes, queue.queue, queue.enqueuedCoordinates, c, n);
        LowerParented(walls, target, visited, parents, queue.queue, queue.enqueuedCoordinates, c, n);
        StepCostAtLeastOne(c, n);
        visited := visited[n := d + edge];
        routes := routes[n := routes[c] + [n]];
        parents := parents[n := c];
      }
    }

    /**
     * Pathfinder.get_direction: the offset from the current position to the
     * first neighbour with the strictly smallest heatmap value for the target
     * building, or the random fallback (randomX, randomY) when the position
     * has no neighbour.
     */
    method GetDirection(currentPosition: Coord, targetBuilding: int, randomX: int, randomY: int)
      returns (direction: (int, int))
      requires WorldShaped(world)
      requires -|heatmapTensor| <= targetBuilding < |heatmapTensor|
      requires WorldShaped(heatmapTensor[TensorIndex(targetBuilding, |heatmapTensor|)])
      requires -1 <= randomX <= 1 && -1 <= randomY <= 1
      ensures var layer := heatmapTensor[TensorIndex(targetBuilding, |heatmapTensor|)];
              var ns := Neighbors(world, currentPosition);
              if ns == [] then direction == (randomX, randomY)
              else exists k :: 0 <= k < |ns| &&
                     direction == (ns[k].0 - currentPosition.0, ns[k].1 - currentPosition.1) &&
                     (forall j :: 0 <= j < k ==> LayerAt(layer, ns[j]) > LayerAt(layer, ns[k])) &&
                     (forall j :: 0 <= j < |ns| ==> LayerAt(layer, ns[k]) <= LayerAt(layer, ns[j]))
      ensures -1 <= direction.0 <= 1 && -1 <= direction.1 <= 1
      ensures Neighbors(world, currentPosition) != [] ==>
                var next := (currentPosition.0 + direction.0, currentPosition.1 + direction.1);
                direction != (0, 0) && InBounds(next) && !IsWall(world, next)
      ensures Valid() ==>
                var k := TensorIndex(targetBuilding, |heatmapTensor|);
                var layer, target := heatmapTensor[k], targets[k];
                target !in walls && currentPosition != target && Reachable(walls, target, currentPosition) ==>
                  Neighbors(world, currentPosition) != [] &&
                  LayerAt(layer, (currentPosition.0 + direction.0, currentPosition.1 + direction.1))
                    < LayerAt(layer, currentPosition)
    {
      var neighbors := GetNeighbors(world, currentPosition);
      NeighborsInBounds(world, currentPosition);
      var layer := heatmapTensor[TensorIndex(targetBuilding, |heatmapTensor|)];
      var bestNeighbor: Option<Coord> := None;
      var bestDistance := 0;
      ghost var k := 0;
      for i := 0 to |neighbors|
        invariant bestNeighbor.None? <==> i == 0
        invariant bestNeighbor.Some? ==>
                    0 <= k < i && bestNeighbor.value == neighbors[k] &&
                    bestDistance == LayerAt(layer, neighbors[k]) &&
                    (forall j :: 0 <= j < k ==> LayerAt(layer, neighbors[j]) > bestDistance) &&
                    (forall j :: 0 <= j < i ==> bestDistance <= LayerAt(layer, neighbors[j]))
      {
        var neighbor := neighbors[i];
        assert neighbor in neighbors;
        var neighborDistance := layer[neighbor.0, neighbor.1];
        assert neighborDistance == LayerAt(layer, neighbor);
        if bestNeighbor.None? || neighborDistance < bestDistance {
          bestNeighbor := Some(neighbor);
          bestDistance := neighborDistance;
          k := i;
        }
      }
      if bestNeighbor.None? {
        direction := (randomX, randomY);
      } else {
        assert bestNeighbor.value in neighbors;
        NeighborsSpec(world, currentPosition);
        direction := (bestNeighbor.value.0 - currentPosition.0, bestNeighbor.value.1 - currentPosition.1);
        assert (currentPosition.0 + direction.0, currentPosition.1 + direction.1) == bestNeighbor.value;
        assert direction == (neighbors[k].0 - currentPosition.0, neighbors[k].1 - currentPosition.1);
      }
      ValidDirectionDescends(currentPosition, targetBuilding, direction, k);
    }

    /** get_direction's step leads to a smaller heatmap value whenever the object invariant holds. */
    lemma ValidDirectionDescends(currentPosition: Coord, targetBuilding: int, direction: (int, int), k: int)
      requires WorldShaped(world) && -|heatmapTensor| <= targetBuilding < |heatmapTensor|
      requires WorldShaped(heatmapTensor[TensorIndex(targetBuilding, |heatmapTensor|)])
      requires var layer := heatmapTensor[TensorIndex(targetBuilding, |heatmapTensor|)];
               var ns := Neighbors(world, currentPosition);
               ns == [] ||
               (0 <= k < |ns| && direction == (ns[k].0 - currentPosition.0, ns[k].1 - currentPosition.1) &&
                forall j :: 0 <= j < |ns| ==> LayerAt(layer, ns[k]) <= LayerAt(layer, ns[j]))
      ensures Valid() ==>
                var k := TensorIndex(targetBuilding, |heatmapTensor|);
                var layer, target := heatmapTensor[k], targets[k];
                target !in walls && currentPosition != target && Reachable(walls, target, currentPosition) ==>
                  Neighbors(world, currentPosition) != [] &&
                  LayerAt(layer, (currentPosition.0 + direction.0, currentPosition.1 + direction.1))
                    < LayerAt(layer, currentPosition)
    {
      if Valid() {
        var t := TensorIndex(targetBuilding, |heatmapTensor|);
        var layer, target := heatmapTensor[t], targets[t];
        assert LayerFor(walls, target, layer);
        if target !in walls && currentPosition != target && Reachable(walls, target, currentPosition) {
          DirectionDescends(world, walls, target, layer, currentPosition, direction, k);
        }
      }
    }
  }
}
