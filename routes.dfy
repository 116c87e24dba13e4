/**
 * Routes through the occupancy grid: chains of neighbouring passable cells
 * that start at a target. Each distance the heatmap build records is the
 * cost of such a chain; the cost of every chain is bounded below by the
 * Chebyshev distance between its ends.
 */
module Routes {
  import opened Wrappers
  import opened Grid

  /**
   * b is a cell get_neighbors lists for a, where walls is the set of wall
   * cells of the world array (see Grid.WallSet and Grid.NeighborsSpec).
   */
  predicate Step(walls: set<Coord>, a: Coord, b: Coord) {
    Adjacent(a, b) && InBounds(b) && b !in walls
  }

  /** The cells one step away from c, as a set. */
  function Around(walls: set<Coord>, c: Coord): (cells: set<Coord>)
    ensures forall n :: n in cells <==> Step(walls, c, n)
  {
    var cells := set k | 0 <= k < 9 && Step(walls, c, Candidate(c, k)) :: Candidate(c, k);
    assert forall n | Step(walls, c, n) :: n in cells by {
      forall n | Step(walls, c, n) ensures n in cells {
        CandidateIndex(c, n);
        assert Step(walls, c, Candidate(c, 3 * (n.0 - c.0 + 1) + (n.1 - c.1 + 1)));
      }
    }
    cells
  }

  /** The cost distance_to_neighbor gives a step (0 for cells that are not neighbours). */
  function StepCost(a: Coord, b: Coord): real {
    match DistanceToNeighbor(a, b)
    case Success(d) => d
    case Failure(_) => 0.0
  }

  /** p is a chain of steps from target to c. */
  ghost predicate IsRoute(walls: set<Coord>, target: Coord, c: Coord, p: seq<Coord>)
    decreases |p|
  {
    |p| > 0 && p[|p| - 1] == c &&
    if |p| == 1 then c == target
    else Step(walls, p[|p| - 2], c) && IsRoute(walls, target, p[|p| - 2], p[..|p| - 1])
  }

  /** A route starts at the target, and each cell on it is one step from the one before. */
  lemma {:induction false} RouteSteps(walls: set<Coord>, target: Coord, c: Coord, p: seq<Coord>)
    requires IsRoute(walls, target, c, p)
    ensures p[0] == target && p[|p| - 1] == c
    ensures forall i :: 0 < i < |p| ==> Step(walls, p[i - 1], p[i])
    decreases |p|
  {
    if |p| > 1 {
      var q := p[..|p| - 1];
      RouteSteps(walls, target, p[|p| - 2], q);
      assert forall i :: 0 <= i < |q| ==> q[i] == p[i];
    }
  }

  /** The sum of the step costs along p. */
  function RouteCost(p: seq<Coord>): real
    decreases |p|
  {
    if |p| <= 1 then 0.0 else RouteCost(p[..|p| - 1]) + StepCost(p[|p| - 2], p[|p| - 1])
  }

  /** c can be reached from target through passable cells. */
  ghost predicate Reachable(walls: set<Coord>, target: Coord, c: Coord)
  {
    exists p :: IsRoute(walls, target, c, p)
  }

  function Chebyshev(a: Coord, b: Coord): int {
    var dx := if a.0 <= b.0 then b.0 - a.0 else a.0 - b.0;
    var dy := if a.1 <= b.1 then b.1 - a.1 else a.1 - b.1;
    if dx <= dy then dy else dx
  }

  /** A route extended by one step is a route, and its cost grows by that step's edge cost. */
  lemma RouteExtend(walls: set<Coord>, target: Coord, c: Coord, p: seq<Coord>, n: Coord)
    requires IsRoute(walls, target, c, p) && Step(walls, c, n)
    ensures IsRoute(walls, target, n, p + [n])
    ensures RouteCost(p + [n]) == RouteCost(p) + DistanceToNeighbor(c, n).value
    ensures DistanceToNeighbor(c, n).value >= 1.0
  {
    assert (p + [n])[..|p|] == p;
  }

  /** Every step costs at least 1. */
  lemma {:induction false} RouteCostBound(walls: set<Coord>, target: Coord, c: Coord, p: seq<Coord>)
    requires IsRoute(walls, target, c, p)
    ensures RouteCost(p) >= (|p| - 1) as real
    ensures RouteCost(p) >= Chebyshev(target, c) as real
    decreases |p|
  {
    if |p| > 1 {
      RouteCostBound(walls, target, p[|p| - 2], p[..|p| - 1]);
    }
  }

  /**
   * A set of cells that holds the target and, with every cell, all of that
   * cell's neighbours, holds every cell reachable from the target.
   */
  lemma {:induction false} ClosedHoldsRoute(walls: set<Coord>, target: Coord, cells: set<Coord>, c: Coord, p: seq<Coord>)
    requires IsRoute(walls, target, c, p) && target in cells
    requires forall v, n :: v in cells && Step(walls, v, n) ==> n in cells
    ensures c in cells
    decreases |p|
  {
    if |p| > 1 {
      ClosedHoldsRoute(walls, target, cells, p[|p| - 2], p[..|p| - 1]);
    }
  }
}
