/**
 * Static walls (Wall.__init__ and Wall.get_pixels): a wall is an
 * axis-aligned segment of odd thickness, and its pixel footprint is the
 * rectangle of cells within thickness // 2 of the segment (one cell more on
 * every side when the buffer pixel is requested).
 */
module Walls {
  import opened Wrappers
  import opened Grid
  import opened Seqs

  datatype Wall = Wall(startPos: Coord, endPos: Coord, thickness: int)

  /** The three value errors Wall.__init__ raises. */
  datatype WallError = IsDot | NotAxisAligned | EvenThickness

  /** What Wall.__init__ accepts: constant in exactly one axis, odd thickness. */
  predicate ValidWall(w: Wall) {
    ((w.startPos.0 == w.endPos.0) != (w.startPos.1 == w.endPos.1)) && w.thickness % 2 == 1
  }

  /** Wall.__init__: the checks in the source's order; the pymunk segment is not modelled. */
  function NewWall(startPos: Coord, endPos: Coord, thickness: int): (r: Result<Wall, WallError>)
    ensures r == Failure(IsDot) <==> startPos == endPos
    ensures r == Failure(NotAxisAligned) <==> startPos.0 != endPos.0 && startPos.1 != endPos.1
    ensures r == Failure(EvenThickness) <==>
              ((startPos.0 == endPos.0) != (startPos.1 == endPos.1)) && thickness % 2 == 0
    ensures r.Success? <==> ValidWall(Wall(startPos, endPos, thickness))
    ensures r.Success? ==> r.value == Wall(startPos, endPos, thickness)
  {
    if startPos.0 == endPos.0 && startPos.1 == endPos.1 then
      Failure(IsDot)
    else if startPos.0 != endPos.0 && startPos.1 != endPos.1 then
      Failure(NotAxisAligned)
    else if thickness % 2 == 0 then
      Failure(EvenThickness)
    else
      Success(Wall(startPos, endPos, thickness))
  }

  /** An accepted wall is constant in exactly one axis. */
  lemma AcceptedWallAxisAligned(startPos: Coord, endPos: Coord, thickness: int)
    requires NewWall(startPos, endPos, thickness).Success?
    ensures (startPos.0 == endPos.0 && startPos.1 != endPos.1) ||
            (startPos.1 == endPos.1 && startPos.0 != endPos.0)
  {
  }

  function Min(a: int, b: int): int { if a <= b then a else b }
  function Max(a: int, b: int): int { if a <= b then b else a }
  function Abs(a: int): int { if a < 0 then -a else a }

  /** The number of values range(lo, hi) produces. */
  function Span(lo: int, hi: int): nat { if lo < hi then hi - lo else 0 }

  /** extra_pixels_per_side: thickness // 2, plus the buffer pixel. */
  function Extra(w: Wall, useBufferPx: bool): int {
    w.thickness / 2 + (if useBufferPx then 1 else 0)
  }

  /** get_pixels takes the up-down branch when both x-coordinates agree. */
  predicate Vertical(w: Wall) {
    w.startPos.0 == w.endPos.0
  }

  /** Bounds of the outer loop, which runs along the wall. */
  function AlongLo(w: Wall, useBufferPx: bool): int {
    (if Vertical(w) then Min(w.startPos.1, w.endPos.1) else Min(w.startPos.0, w.endPos.0)) - Extra(w, useBufferPx)
  }

  function AlongHi(w: Wall, useBufferPx: bool): int {
    (if Vertical(w) then Max(w.startPos.1, w.endPos.1) else Max(w.startPos.0, w.endPos.0)) + Extra(w, useBufferPx) + 1
  }

  /** Bounds of the inner loop, which runs across the wall. */
  function AcrossLo(w: Wall, useBufferPx: bool): int {
    (if Vertical(w) then w.startPos.0 else w.startPos.1) - Extra(w, useBufferPx)
  }

  function AcrossHi(w: Wall, useBufferPx: bool): int {
    (if Vertical(w) then w.startPos.0 else w.startPos.1) + Extra(w, useBufferPx) + 1
  }

  /** The cell at a position along and across a wall, as an (x, y) pair. */
  function Pixel(vertical: bool, along: int, across: int): Coord {
    if vertical then (across, along) else (along, across)
  }

  /** The width pixels the inner loop appends at one position along the wall. */
  function Row(vertical: bool, along: int, acrossLo: int, width: nat): seq<Coord> {
    seq(width, j => Pixel(vertical, along, acrossLo + j))
  }

  /** The pixels of the first a steps of the outer loop, which starts at alongLo. */
  function Rows(vertical: bool, alongLo: int, acrossLo: int, width: nat, a: nat): seq<Coord> {
    if a == 0 then [] else Rows(vertical, alongLo, acrossLo, width, a - 1) + Row(vertical, alongLo + a - 1, acrossLo, width)
  }

  /** The footprint: every row of the rectangle, row after row. */
  function Footprint(w: Wall, useBufferPx: bool): seq<Coord> {
    Rows(Vertical(w), AlongLo(w, useBufferPx), AcrossLo(w, useBufferPx),
         Span(AcrossLo(w, useBufferPx), AcrossHi(w, useBufferPx)), Span(AlongLo(w, useBufferPx), AlongHi(w, useBufferPx)))
  }

  /** Wall.get_pixels: two nested range loops, outer along the wall, inner across it. */
  method GetPixels(w: Wall, useBufferPx: bool) returns (wallPixels: seq<Coord>)
    ensures wallPixels == Footprint(w, useBufferPx)
  {
    var extraPixelsPerSide := w.thickness / 2;
    if useBufferPx {
      extraPixelsPerSide := extraPixelsPerSide + 1;
    }
    wallPixels := [];
    var vertical := w.startPos.0 == w.endPos.0;
    var outerLo, outerHi, innerLo, innerHi;
    if vertical {
      var smallerY := Min(w.startPos.1, w.endPos.1);
      var largerY := Max(w.startPos.1, w.endPos.1);
      outerLo, outerHi := smallerY - extraPixelsPerSide, largerY + extraPixelsPerSide + 1;
      innerLo, innerHi := w.startPos.0 - extraPixelsPerSide, w.startPos.0 + extraPixelsPerSide + 1;
    } else {
      var smallerX := Min(w.startPos.0, w.endPos.0);
      var largerX := Max(w.startPos.0, w.endPos.0);
      outerLo, outerHi := smallerX - extraPixelsPerSide, largerX + extraPixelsPerSide + 1;
      innerLo, innerHi := w.startPos.1 - extraPixelsPerSide, w.startPos.1 + extraPixelsPerSide + 1;
    }
    assert outerLo == AlongLo(w, useBufferPx) && outerHi == AlongHi(w, useBufferPx);
    assert innerLo == AcrossLo(w, useBufferPx) && innerHi == AcrossHi(w, useBufferPx);
    ghost var width := Span(innerLo, innerHi);
    var outer := outerLo;
    while outer < outerHi
      invariant outerLo <= outer <= Max(outerLo, outerHi)
      invariant wallPixels == Rows(vertical, outerLo, innerLo, width, outer - outerLo)
    {
      wallPixels := AppendRow(wallPixels, vertical, outer, innerLo, innerHi);
      outer := outer + 1;
    }
  }

  /** The inner loop of get_pixels at one position along the wall: the cells across it, in order. */
  method AppendRow(pixels: seq<Coord>, vertical: bool, outer: int, innerLo: int, innerHi: int)
    returns (wallPixels: seq<Coord>)
    ensures wallPixels == pixels + Row(vertical, outer, innerLo, Span(innerLo, innerHi))
  {
    wallPixels := pixels;
    var inner := innerLo;
    while inner < innerHi
      invariant innerLo <= inner <= Max(innerLo, innerHi)
      invariant wallPixels == pixels + Row(vertical, outer, innerLo, inner - innerLo)
    {
      RowSnoc(vertical, outer, innerLo, inner - innerLo);
      AppendAssoc(pixels, Row(vertical, outer, innerLo, inner - innerLo), Pixel(vertical, outer, inner));
      if vertical {
        wallPixels := wallPixels + [(inner, outer)];
      } else {
        wallPixels := wallPixels + [(outer, inner)];
      }
      inner := inner + 1;
    }
  }

  /** Pixel j of a row is j steps across from its start. */
  lemma RowAt(vertical: bool, along: int, acrossLo: int, width: nat)
    ensures |Row(vertical, along, acrossLo, width)| == width
    ensures forall j :: 0 <= j < width ==> Row(vertical, along, acrossLo, width)[j] == Pixel(vertical, along, acrossLo + j)
  {
  }

  /** A row one pixel wider ends with one more pixel. */
  lemma RowSnoc(vertical: bool, along: int, acrossLo: int, m: nat)
    ensures Row(vertical, along, acrossLo, m + 1) == Row(vertical, along, acrossLo, m) + [Pixel(vertical, along, acrossLo + m)]
  {
  }

  /** The coordinate of a cell along the wall and across it. */
  function AlongOf(vertical: bool, p: Coord): int { if vertical then p.1 else p.0 }
  function AcrossOf(vertical: bool, p: Coord): int { if vertical then p.0 else p.1 }

  /**
   * A cell lies within e of the wall's line, measured perpendicularly, and
   * within e beyond its endpoints, measured along it.
   */
  predicate WithinWall(w: Wall, e: int, p: Coord) {
    if Vertical(w) then
      Abs(p.0 - w.startPos.0) <= e &&
      Min(w.startPos.1, w.endPos.1) - e <= p.1 <= Max(w.startPos.1, w.endPos.1) + e
    else
      Abs(p.1 - w.startPos.1) <= e &&
      Min(w.startPos.0, w.endPos.0) - e <= p.0 <= Max(w.startPos.0, w.endPos.0) + e
  }

  /** The first a rows hold a times the row width pixels. */
  lemma {:induction false} RowsLength(vertical: bool, alongLo: int, acrossLo: int, width: nat, a: nat)
    ensures |Rows(vertical, alongLo, acrossLo, width, a)| == a * width
  {
    if a > 0 {
      RowsLength(vertical, alongLo, acrossLo, width, a - 1);
      assert a * width == (a - 1) * width + width;
    }
  }

  /** The cells of the first a rows: a steps along, and width steps across. */
  lemma {:induction false} RowsMember(vertical: bool, alongLo: int, acrossLo: int, width: nat, a: nat, p: Coord)
    ensures p in Rows(vertical, alongLo, acrossLo, width, a) <==>
              alongLo <= AlongOf(vertical, p) < alongLo + a && acrossLo <= AcrossOf(vertical, p) < acrossLo + width
  {
    if a > 0 {
      RowsMember(vertical, alongLo, acrossLo, width, a - 1, p);
      var row := Row(vertical, alongLo + a - 1, acrossLo, width);
      RowAt(vertical, alongLo + a - 1, acrossLo, width);
      if AlongOf(vertical, p) == alongLo + a - 1 && acrossLo <= AcrossOf(vertical, p) < acrossLo + width {
        assert row[AcrossOf(vertical, p) - acrossLo] == p;
      }
    }
  }

  /** p comes before q in the order get_pixels emits cells: along the wall first, then across it. */
  predicate EmittedBefore(vertical: bool, p: Coord, q: Coord) {
    AlongOf(vertical, p) < AlongOf(vertical, q) ||
    (AlongOf(vertical, p) == AlongOf(vertical, q) && AcrossOf(vertical, p) < AcrossOf(vertical, q))
  }

  /** Rows come out strictly ordered. */
  lemma {:induction false} RowsOrdered(vertical: bool, alongLo: int, acrossLo: int, width: nat, a: nat)
    ensures forall i, j :: 0 <= i < j < |Rows(vertical, alongLo, acrossLo, width, a)| ==>
              EmittedBefore(vertical, Rows(vertical, alongLo, acrossLo, width, a)[i],
                            Rows(vertical, alongLo, acrossLo, width, a)[j])
  {
    if a > 0 {
      RowsOrdered(vertical, alongLo, acrossLo, width, a - 1);
      var prev, row := Rows(vertical, alongLo, acrossLo, width, a - 1), Row(vertical, alongLo + a - 1, acrossLo, width);
      var s := prev + row;
      RowAt(vertical, alongLo + a - 1, acrossLo, width);
      forall i, j | 0 <= i < j < |s|
        ensures EmittedBefore(vertical, s[i], s[j])
      {
        if i < |prev| && j >= |prev| {
          RowsMember(vertical, alongLo, acrossLo, width, a - 1, s[i]);
          assert s[j] == row[j - |prev|];
          assert AlongOf(vertical, s[j]) == alongLo + a - 1;
        } else if i >= |prev| {
          assert s[i] == row[i - |prev|] && s[j] == row[j - |prev|];
          assert AlongOf(vertical, s[i]) == AlongOf(vertical, s[j]);
          assert AcrossOf(vertical, s[i]) == acrossLo + i - |prev| && AcrossOf(vertical, s[j]) == acrossLo + j - |prev|;
        }
      }
    }
  }

  /** The length of a wall: the distance between its endpoints along its axis. */
  function WallLength(w: Wall): int {
    Abs(w.endPos.0 - w.startPos.0) + Abs(w.endPos.1 - w.startPos.1)
  }

  /** get_pixels yields (2e+1) * (length + 2e + 1) pixels, e = thickness // 2 (+1 with the buffer). */
  lemma FootprintCount(w: Wall, useBufferPx: bool)
    requires ValidWall(w) && Extra(w, useBufferPx) >= 0
    ensures var e := Extra(w, useBufferPx);
            |Footprint(w, useBufferPx)| == (2 * e + 1) * (WallLength(w) + 2 * e + 1)
  {
    var along := Span(AlongLo(w, useBufferPx), AlongHi(w, useBufferPx));
    var width := Span(AcrossLo(w, useBufferPx), AcrossHi(w, useBufferPx));
    RowsLength(Vertical(w), AlongLo(w, useBufferPx), AcrossLo(w, useBufferPx), width, along);
    FootprintSpans(w, useBufferPx);
  }

  /** The footprint's two sides: the wall's length plus e at both ends, and e on both sides of the line. */
  lemma FootprintSpans(w: Wall, useBufferPx: bool)
    requires ValidWall(w) && Extra(w, useBufferPx) >= 0
    ensures var e := Extra(w, useBufferPx);
            Span(AcrossLo(w, useBufferPx), AcrossHi(w, useBufferPx)) == 2 * e + 1 &&
            Span(AlongLo(w, useBufferPx), AlongHi(w, useBufferPx)) == WallLength(w) + 2 * e + 1
  {
  }

  /** A cell is in the footprint iff it lies within e of the wall line and of its endpoints. */
  lemma FootprintMember(w: Wall, useBufferPx: bool, p: Coord)
    ensures p in Footprint(w, useBufferPx) <==> WithinWall(w, Extra(w, useBufferPx), p)
  {
    RowsMember(Vertical(w), AlongLo(w, useBufferPx), AcrossLo(w, useBufferPx),
               Span(AcrossLo(w, useBufferPx), AcrossHi(w, useBufferPx)),
               Span(AlongLo(w, useBufferPx), AlongHi(w, useBufferPx)), p);
  }

  /** get_pixels lists its cells in strictly increasing order, so never one twice. */
  lemma FootprintDistinct(w: Wall, useBufferPx: bool)
    ensures forall i, j :: 0 <= i < j < |Footprint(w, useBufferPx)| ==>
              EmittedBefore(Vertical(w), Footprint(w, useBufferPx)[i], Footprint(w, useBufferPx)[j])
    ensures forall i, j :: 0 <= i < j < |Footprint(w, useBufferPx)| ==>
              Footprint(w, useBufferPx)[i] != Footprint(w, useBufferPx)[j]
  {
    var s := Footprint(w, useBufferPx);
    RowsOrdered(Vertical(w), AlongLo(w, useBufferPx), AcrossLo(w, useBufferPx),
                Span(AcrossLo(w, useBufferPx), AcrossHi(w, useBufferPx)),
                Span(AlongLo(w, useBufferPx), AlongHi(w, useBufferPx)));
    forall i, j | 0 <= i < j < |s|
      ensures s[i] != s[j]
    {
      assert EmittedBefore(Vertical(w), s[i], s[j]);
    }
  }

  /** Swapping the endpoints of an accepted wall gives the same pixels in the same order. */
  lemma FootprintSwap(w: Wall, useBufferPx: bool)
    requires ValidWall(w)
    ensures Footprint(Wall(w.endPos, w.startPos, w.thickness), useBufferPx) == Footprint(w, useBufferPx)
  {
    var v := Wall(w.endPos, w.startPos, w.thickness);
    assert Vertical(v) == Vertical(w);
    assert AlongLo(v, useBufferPx) == AlongLo(w, useBufferPx) && AlongHi(v, useBufferPx) == AlongHi(w, useBufferPx);
    assert AcrossLo(v, useBufferPx) == AcrossLo(w, useBufferPx) && AcrossHi(v, useBufferPx) == AcrossHi(w, useBufferPx);
  }
}
