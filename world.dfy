/**
 * Pathfinder.create_world_array: the 0/1 occupancy grid built from the
 * buildings' wall pixels and the border ring.
 */
module World {
  import opened Grid
  import opened Walls

  /** How numpy resolves one index into an axis of length N: negative indices count from the end. */
  function NumpyIndex(i: int): int {
    if i < 0 then i + N else i
  }

  /** numpy accepts the index without raising IndexError. */
  predicate Indexable(p: Coord) {
    -N <= p.0 < N && -N <= p.1 < N
  }

  /** The cell a pixel (x, y) writes to. */
  function CellOf(p: Coord): Coord {
    (NumpyIndex(p.0), NumpyIndex(p.1))
  }

  /** The cells written for a list of pixels. */
  function PixelCells(pixels: seq<Coord>): set<Coord> {
    set p | p in pixels :: CellOf(p)
  }

  /** The cells written for the walls of one building (with the buffer pixel). */
  function WallCells(walls: seq<Wall>): set<Coord> {
    if walls == [] then {} else WallCells(walls[..|walls| - 1]) + PixelCells(Footprint(walls[|walls| - 1], true))
  }

  /** The cells written for a list of buildings. */
  function BuildingCells(buildings: seq<seq<Wall>>): set<Coord> {
    if buildings == [] then {} else BuildingCells(buildings[..|buildings| - 1]) + WallCells(buildings[|buildings| - 1])
  }

  /** Every wall pixel of every building is an index numpy accepts. */
  predicate PixelsIndexable(buildings: seq<seq<Wall>>) {
    forall b, k, p :: 0 <= b < |buildings| && 0 <= k < |buildings[b]| && p in Footprint(buildings[b][k], true) ==> Indexable(p)
  }

  predicate OnBorder(c: Coord) {
    c.0 == 0 || c.0 == N - 1 || c.1 == 0 || c.1 == N - 1
  }

  /** Within the grid, exactly the cells of the set (and, from border i on, the border prefix) hold 1, all others 0. */
  ghost predicate Holds(world: array2<int>, cells: set<Coord>, border: int)
    reads world
    requires WorldShaped(world)
  {
    forall x, y :: 0 <= x < N && 0 <= y < N ==>
      world[x, y] == if (x, y) in cells || BorderPrefix((x, y), border) then 1 else 0
  }

  /** The border cells written by the first i steps of the border loop. */
  predicate BorderPrefix(c: Coord, i: int) {
    ((c.0 == 0 || c.0 == N - 1) && c.1 < i) || ((c.1 == 0 || c.1 == N - 1) && c.0 < i)
  }

  lemma CellsInBounds(pixels: seq<Coord>)
    requires forall p :: p in pixels ==> Indexable(p)
    ensures forall c :: c in PixelCells(pixels) ==> InBounds(c)
  {
  }

  /** One more pixel adds its cell. */
  lemma PixelCellsSnoc(pixels: seq<Coord>, m: nat)
    requires m < |pixels|
    ensures PixelCells(pixels[..m + 1]) == PixelCells(pixels[..m]) + {CellOf(pixels[m])}
  {
    assert pixels[..m + 1] == pixels[..m] + [pixels[m]];
  }

  /** The innermost loop of create_world_array: world_array[pixel] = 1 for each pixel of one wall. */
  method MarkPixels(world: array2<int>, pixels: seq<Coord>, ghost cells: set<Coord>)
    requires WorldShaped(world) && Holds(world, cells, 0)
    requires forall p :: p in pixels ==> Indexable(p)
    modifies world
    ensures Holds(world, cells + PixelCells(pixels), 0)
  {
    for m := 0 to |pixels|
      invariant Holds(world, cells + PixelCells(pixels[..m]), 0)
    {
      var p := pixels[m];
      assert p in pixels;
      world[NumpyIndex(p.0), NumpyIndex(p.1)] := 1;
      PixelCellsSnoc(pixels, m);
    }
    assert pixels[..|pixels|] == pixels;
  }

  /** world_array[0, :], [N - 1, :], [:, 0] and [:, N - 1] are set to 1. */
  method MarkBorder(world: array2<int>, ghost cells: set<Coord>)
    requires WorldShaped(world) && Holds(world, cells, 0)
    modifies world
    ensures Holds(world, cells, N)
  {
    for i := 0 to N
      invariant Holds(world, cells, i)
    {
      world[0, i] := 1;
      world[N - 1, i] := 1;
      world[i, 0] := 1;
      world[i, N - 1] := 1;
    }
  }

  /**
   * Pathfinder.create_world_array: every wall pixel and every border cell is
   * 1, every other cell 0. The (1, 1) block reduction that follows is the
   * identity and is not modelled.
   */
  method CreateWorldArray(buildings: seq<seq<Wall>>) returns (world: array2<int>)
    requires PixelsIndexable(buildings)
    ensures fresh(world) && WorldShaped(world)
    ensures forall x, y :: 0 <= x < N && 0 <= y < N ==>
              world[x, y] == if OnBorder((x, y)) || (x, y) in BuildingCells(buildings) then 1 else 0
  {
    world := new int[N, N]((i, j) => 0);
    ghost var cells: set<Coord> := {};
    for b := 0 to |buildings|
      invariant cells == BuildingCells(buildings[..b])
      invariant Holds(world, cells, 0)
    {
      ghost var before := cells;
      var building := buildings[b];
      for k := 0 to |building|
        invariant cells == before + WallCells(building[..k])
        invariant Holds(world, cells, 0)
      {
        var pixels := GetPixels(building[k], true);
        MarkPixels(world, pixels, cells);
        cells := cells + PixelCells(pixels);
        assert building[..k + 1][..k] == building[..k];
      }
      assert building[..|building|] == building;
      assert buildings[..b + 1][..b] == buildings[..b];
    }
    assert buildings[..|buildings|] == buildings;
    MarkBorder(world, cells);
  }
}
