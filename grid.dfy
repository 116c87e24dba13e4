/**
 * The occupancy grid seen by the pathfinder: cell coordinates, passability,
 * the 8-neighbourhood of a cell (Node.get_neighbors) and the octile edge cost
 * between two neighbouring cells (Node.distance_to_neighbor).
 */
module Grid {
  import opened Wrappers

  /** Side length of the square world; the source hard-codes the bound 799 = N - 1. */
  const N: int := 800

  /** The value np.sqrt(2) rounds to, as an exact rational. */
  const SQRT2: real := 1.4142135623730951

  type Coord = (int, int)

  predicate InBounds(c: Coord) {
    0 <= c.0 < N && 0 <= c.1 < N
  }

  /** A world array has the shape of the grid. */
  predicate WorldShaped(world: array2<int>) {
    world.Length0 == N && world.Length1 == N
  }

  /** A cell holding 1 is part of a wall (or the border) and is not passable. */
  predicate IsWall(world: array2<int>, c: Coord)
    reads world
    requires WorldShaped(world) && InBounds(c)
  {
    world[c.0, c.1] == 1
  }

  /** The wall cells of a world array, as a set of coordinates. */
  ghost function WallSet(world: array2<int>): (walls: set<Coord>)
    reads world
    requires WorldShaped(world)
    ensures forall c :: c in walls <==> InBounds(c) && IsWall(world, c)
  {
    set x, y | 0 <= x < N && 0 <= y < N && world[x, y] == 1 :: (x, y)
  }

  /** b is one of the eight cells around a. */
  predicate Adjacent(a: Coord, b: Coord) {
    a != b && -1 <= b.0 - a.0 <= 1 && -1 <= b.1 - a.1 <= 1
  }

  /** The cell that get_neighbors considers at step k of its loops (x-delta outer, y-delta inner). */
  function Candidate(c: Coord, k: int): Coord {
    var dx := if k < 3 then -1 else if k < 6 then 0 else 1;
    (c.0 + dx, c.1 + k - 3 * (dx + 1) - 1)
  }

  /** The tests get_neighbors applies to a candidate, in the source's order. */
  predicate Admissible(world: array2<int>, c: Coord, n: Coord)
    reads world
    requires WorldShaped(world)
  {
    InBounds(n) && !IsWall(world, n) && n != c
  }

  /** The admissible cells among the first k candidates, in enumeration order. */
  function NeighborsUpTo(world: array2<int>, c: Coord, k: nat): seq<Coord>
    reads world
    requires WorldShaped(world) && k <= 9
  {
    if k == 0 then []
    else
      var n := Candidate(c, k - 1);
      NeighborsUpTo(world, c, k - 1) + (if Admissible(world, c, n) then [n] else [])
  }

  /** The neighbour list get_neighbors returns for the cell c. */
  function Neighbors(world: array2<int>, c: Coord): seq<Coord>
    reads world
    requires WorldShaped(world)
  {
    NeighborsUpTo(world, c, 9)
  }

  /** Lexicographic order on offsets from a common cell: x-delta first, then y-delta. */
  predicate EnumeratedBefore(a: Coord, b: Coord) {
    a.0 < b.0 || (a.0 == b.0 && a.1 < b.1)
  }

  /** Node.get_neighbors, with its two nested loops over the deltas [-1, 0, 1]. */
  method GetNeighbors(world: array2<int>, c: Coord) returns (neighbors: seq<Coord>)
    requires WorldShaped(world)
    ensures neighbors == Neighbors(world, c)
  {
    neighbors := [];
    // the deltas -1, 0, 1, x outer and y inner
    for dx := -1 to 2
      invariant neighbors == NeighborsUpTo(world, c, 3 * (dx + 1))
    {
      for dy := -1 to 2
        invariant neighbors == NeighborsUpTo(world, c, 3 * (dx + 1) + (dy + 1))
      {
        var nx, ny := c.0 + dx, c.1 + dy;
        NeighborsStep(world, c, dx, dy);
        // out of the world, a wall, or the cell itself: skipped
        if nx < 0 || nx > N - 1 || ny < 0 || ny > N - 1 {
          continue;
        }
        if world[nx, ny] == 1 {
          continue;
        }
        if dx == 0 && dy == 0 {
          continue;
        }
        neighbors := neighbors + [(nx, ny)];
      }
    }
  }

  /** The first k candidates, as a set, are the cells within one step whose offset index is below k. */
  lemma {:induction false} NeighborsUpToMember(world: array2<int>, c: Coord, k: nat, n: Coord)
    requires WorldShaped(world) && k <= 9
    ensures n in NeighborsUpTo(world, c, k) <==>
              Admissible(world, c, n) && exists j :: 0 <= j < k && Candidate(c, j) == n
  {
    if k > 0 {
      NeighborsUpToMember(world, c, k - 1, n);
      if n in NeighborsUpTo(world, c, k) && n !in NeighborsUpTo(world, c, k - 1) {
        assert Candidate(c, k - 1) == n;
      }
    }
  }

  /** The candidate index of each cell within one step of c. */
  lemma CandidateIndex(c: Coord, n: Coord)
    requires -1 <= n.0 - c.0 <= 1 && -1 <= n.1 - c.1 <= 1
    ensures Candidate(c, 3 * (n.0 - c.0 + 1) + (n.1 - c.1 + 1)) == n
  {
  }

  /** Later candidates come later in the enumeration order. */
  lemma CandidateOrder(c: Coord, i: int, j: int)
    requires 0 <= i < j < 9
    ensures EnumeratedBefore(Candidate(c, i), Candidate(c, j))
  {
  }

  /** One more step of the enumeration. */
  lemma NeighborsUpToNext(world: array2<int>, c: Coord, k: nat)
    requires WorldShaped(world) && k < 9
    ensures NeighborsUpTo(world, c, k + 1) ==
              NeighborsUpTo(world, c, k) + (if Admissible(world, c, Candidate(c, k)) then [Candidate(c, k)] else [])
  {
  }

  /** The step of get_neighbors' loops at the deltas (dx, dy), in the loop's own tests. */
  lemma NeighborsStep(world: array2<int>, c: Coord, dx: int, dy: int)
    requires WorldShaped(world) && -1 <= dx <= 1 && -1 <= dy <= 1
    ensures var nx, ny := c.0 + dx, c.1 + dy;
            NeighborsUpTo(world, c, 3 * (dx + 1) + (dy + 1) + 1) ==
              NeighborsUpTo(world, c, 3 * (dx + 1) + (dy + 1)) +
              (if 0 <= nx <= N - 1 && 0 <= ny <= N - 1 && world[nx, ny] != 1 && !(dx == 0 && dy == 0)
               then [(nx, ny)] else [])
  {
    CandidateAt(c, dx + 1, dy + 1);
    NeighborsUpToNext(world, c, 3 * (dx + 1) + (dy + 1));
  }

  /** Every candidate lies within one step of c, so only the ninth (c itself) is not adjacent. */
  lemma CandidateNear(c: Coord, j: int)
    requires 0 <= j < 9
    ensures -1 <= Candidate(c, j).0 - c.0 <= 1 && -1 <= Candidate(c, j).1 - c.1 <= 1
  {
  }

  /** The fifth candidate is the cell itself, which is never admissible. */
  lemma CandidateCentre(c: Coord)
    ensures Candidate(c, 4) == c
  {
  }

  /** The candidate visited at step (i, j) of the two loops. */
  lemma CandidateAt(c: Coord, i: int, j: int)
    requires 0 <= i < 3 && 0 <= j < 3
    ensures Candidate(c, 3 * i + j) == (c.0 + i - 1, c.1 + j - 1)
  {
  }

  /**
   * The neighbour list is strictly increasing in enumeration order, each entry
   * is one of the first k candidates, and the centre is never counted.
   */
  lemma {:induction false} NeighborsUpToOrdered(world: array2<int>, c: Coord, k: nat)
    requires WorldShaped(world) && k <= 9
    ensures |NeighborsUpTo(world, c, k)| + (if k >= 5 then 1 else 0) <= k
    ensures forall i :: 0 <= i < |NeighborsUpTo(world, c, k)| ==>
              exists j :: 0 <= j < k && Candidate(c, j) == NeighborsUpTo(world, c, k)[i]
    ensures forall i, j :: 0 <= i < j < |NeighborsUpTo(world, c, k)| ==>
              EnumeratedBefore(NeighborsUpTo(world, c, k)[i], NeighborsUpTo(world, c, k)[j])
  {
    if k > 0 {
      NeighborsUpToOrdered(world, c, k - 1);
      var prev := NeighborsUpTo(world, c, k - 1);
      var s := NeighborsUpTo(world, c, k);
      var n := Candidate(c, k - 1);
      CandidateCentre(c);
      if Admissible(world, c, n) {
        assert s == prev + [n];
        forall i | 0 <= i < |prev|
          ensures EnumeratedBefore(prev[i], n)
        {
          var j :| 0 <= j < k - 1 && Candidate(c, j) == prev[i];
          CandidateOrder(c, j, k - 1);
        }
      } else {
        assert s == prev;
      }
    }
  }

  /**
   * get_neighbors returns at most 8 cells; a cell is in the list iff it is
   * adjacent to c, inside the grid and not a wall; the list is ordered by
   * x-delta, then y-delta.
   */
  lemma NeighborsSpec(world: array2<int>, c: Coord)
    requires WorldShaped(world)
    ensures |Neighbors(world, c)| <= 8
    ensures forall n :: n in Neighbors(world, c) <==> Adjacent(c, n) && InBounds(n) && !IsWall(world, n)
    ensures forall i, j :: 0 <= i < j < |Neighbors(world, c)| ==>
              EnumeratedBefore(Neighbors(world, c)[i], Neighbors(world, c)[j])
  {
    NeighborsUpToOrdered(world, c, 9);
    forall n
      ensures n in Neighbors(world, c) <==> Adjacent(c, n) && InBounds(n) && !IsWall(world, n)
    {
      NeighborsUpToMember(world, c, 9, n);
      if Adjacent(c, n) && InBounds(n) && !IsWall(world, n) {
        CandidateIndex(c, n);
      }
      if n in Neighbors(world, c) {
        var j :| 0 <= j < 9 && Candidate(c, j) == n;
        CandidateNear(c, j);
      }
    }
  }

  /** Every listed neighbour lies inside the grid. */
  lemma NeighborsInBounds(world: array2<int>, c: Coord)
    requires WorldShaped(world)
    ensures forall i :: 0 <= i < |Neighbors(world, c)| ==> InBounds(Neighbors(world, c)[i])
  {
    NeighborsSpec(world, c);
    assert forall i :: 0 <= i < |Neighbors(world, c)| ==> Neighbors(world, c)[i] in Neighbors(world, c);
  }

  /** Errors that Node.distance_to_neighbor raises. */
  datatype AdjacencyError = NotNeighbors | SameNode

  /**
   * Node.distance_to_neighbor: fails unless the two cells are within one step
   * of each other and different; otherwise 1 for cells sharing a row or a
   * column and the square root of 2 for diagonal cells.
   */
  function DistanceToNeighbor(a: Coord, b: Coord): (r: Result<real, AdjacencyError>)
    ensures r.Success? <==> Adjacent(a, b)
    ensures r == Failure(SameNode) <==> a == b
    ensures r.Success? ==> (r.value == 1.0 <==> a.0 == b.0 || a.1 == b.1)
    ensures r.Success? ==> (r.value == 1.0 || r.value == SQRT2)
  {
    if !(b.0 - 1 <= a.0 <= b.0 + 1) || !(b.1 - 1 <= a.1 <= b.1 + 1) then
      Failure(NotNeighbors)
    else if a == b then
      Failure(SameNode)
    else if (a.0 == b.0 && b.1 - 1 <= a.1 <= b.1 + 1) || (a.1 == b.1 && b.0 - 1 <= a.0 <= b.0 + 1) then
      Success(1.0)
    else
      Success(SQRT2)
  }

  /** The edge cost does not depend on the direction of the step. */
  lemma DistanceSymmetric(a: Coord, b: Coord)
    ensures DistanceToNeighbor(a, b) == DistanceToNeighbor(b, a)
  {
  }
}
