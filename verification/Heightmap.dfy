/** The index buffers of src/modules/heightmap/heightmap.c. */
module Heightmaps {
  import opened Grids

  /** The six vertex indices of a grid cell: two triangles. */
  datatype Tile = Tile(indices: seq<nat>)

  /** The cell whose lower left vertex is (x, y). */
  function CellTile(width: nat, x: nat, y: nat): Tile {
    var lowerLeft, lowerRight := x + y * width, (x + 1) + y * width;
    var topLeft, topRight := x + (y + 1) * width, (x + 1) + (y + 1) * width;
    Tile([topLeft, lowerRight, lowerLeft, topLeft, topRight, lowerRight])
  }

  // ----- quadrants

  /** A half-open rectangle of cells. */
  datatype Area = Area(left: nat, right: nat, top: nat, bottom: nat) {
    predicate Ok() {
      left <= right && top <= bottom
    }
    function Size(): Grids.Size
      requires Ok()
    {
      Grids.Size(right - left, bottom - top)
    }
    predicate Has(x: nat, y: nat) {
      left <= x < right && top <= y < bottom
    }
  }

  /** Bit 0 of the number picks the right half, bit 1 the bottom half. */
  function Quadrant(width: nat, height: nat, q: nat): (a: Area)
    requires width >= 1 && height >= 1
    ensures a.Ok()
  {
    Area(if q % 2 == 0 then 0 else width / 2, if q % 2 == 0 then width / 2 else width - 1,
         if q / 2 == 0 then 0 else height / 2, if q / 2 == 0 then height / 2 else height - 1)
  }

  /** Where the tile of a cell is in the array of its quadrant. */
  function Slot(a: Area, x: nat, y: nat): nat
    requires a.Ok() && a.Has(x, y)
  {
    Index(a.Size(), x - a.left, y - a.top)
  }

  /** The array holds exactly the cells of the area, one after the other. */
  ghost predicate Filled(tiles: seq<Tile>, a: Area, width: nat)
    requires a.Ok()
  {
    && |tiles| == a.Size().Cells()
    && forall x: nat, y: nat :: a.Has(x, y) ==> Slot(a, x, y) < |tiles| && tiles[Slot(a, x, y)] == CellTile(width, x, y)
  }

  /** Every cell lies in exactly one quadrant. */
  lemma OneQuadrant(width: nat, height: nat, x: nat, y: nat)
    requires width >= 1 && height >= 1
    ensures (x < width - 1 && y < height - 1) <==>
            exists q: nat :: q < 4 && Quadrant(width, height, q).Has(x, y)
    ensures forall q: nat, r: nat :: q < 4 && r < 4 && Quadrant(width, height, q).Has(x, y) && Quadrant(width, height, r).Has(x, y)
              ==> q == r
  {
    if x < width - 1 && y < height - 1 {
      var q: nat := (if x < width / 2 then 0 else 1) + (if y < height / 2 then 0 else 2);
      assert Quadrant(width, height, q).Has(x, y);
    }
  }

  /** Every slot belongs to exactly one cell of its area. */
  lemma OneCell(a: Area, i: nat) returns (x: nat, y: nat)
    requires a.Ok() && i < a.Size().Cells()
    ensures a.Has(x, y) && Slot(a, x, y) == i
    ensures forall x1: nat, y1: nat :: a.Has(x1, y1) && Slot(a, x1, y1) == i ==> x1 == x && y1 == y
  {
    var g := a.Size();
    RowAndColumn(g, i);
    x, y := a.left + i % g.width, a.top + i / g.width;
    forall x1: nat, y1: nat | a.Has(x1, y1) && Slot(a, x1, y1) == i
      ensures x1 == x && y1 == y
    {
      IndexInverse(g, x1 - a.left, y1 - a.top);
    }
  }

  /** The four quadrants have the same size if and only if the sizes are odd
      and equal to each other - apart from height maps without any cell. */
  lemma EqualQuadrants(size: nat)
    requires size >= 1
    ensures (forall q: nat :: q < 4 ==> Quadrant(size, size, q).Size() == Quadrant(size, size, 0).Size()) <==> size % 2 == 1
  {
    assert Quadrant(size, size, 1).Size().width == size - 1 - size / 2;
  }

  // ----- filling the arrays

  /** What slot i holds once it is filled. */
  function Expected(a: Area, width: nat, i: nat): Tile
    requires a.Ok() && a.left < a.right
  {
    CellTile(width, a.left + i % a.Size().width, a.top + i / a.Size().width)
  }

  lemma ExpectedAt(a: Area, width: nat, x: nat, y: nat)
    requires a.Ok() && a.Has(x, y)
    ensures Slot(a, x, y) < a.Size().Cells() && Expected(a, width, Slot(a, x, y)) == CellTile(width, x, y)
  {
    IndexInGrid(a.Size(), x - a.left, y - a.top);
    IndexInverse(a.Size(), x - a.left, y - a.top);
  }

  /** Fills one array row by row, with a running index. */
  method FillTiles(tiles: array<Tile>, a: Area, width: nat)
    requires a.Ok() && tiles.Length == a.Size().Cells()
    modifies tiles
    ensures Filled(tiles[..], a, width)
  {
    hide CellTile, Expected, Index;
    var tileIndex := 0;
    ghost var w := a.right - a.left;
    for y := a.top to a.bottom
      invariant tileIndex == (y - a.top) * w <= tiles.Length
      invariant forall i :: 0 <= i < tileIndex ==> w > 0 && tiles[i] == Expected(a, width, i)
    {
      for x := a.left to a.right
        invariant tileIndex == (y - a.top) * w + (x - a.left)
        invariant tileIndex <= tiles.Length
        invariant forall i :: 0 <= i < tileIndex ==> w > 0 && tiles[i] == Expected(a, width, i)
      {
        ExpectedAt(a, width, x, y);
        SlotIs(a, x, y);
        tiles[tileIndex] := CellTile(width, x, y);
        tileIndex := tileIndex + 1;
      }
      assert (y - a.top) * w + w == (y + 1 - a.top) * w;
    }
    forall x: nat, y: nat | a.Has(x, y)
      ensures Slot(a, x, y) < tiles.Length && tiles[Slot(a, x, y)] == CellTile(width, x, y)
    {
      ExpectedAt(a, width, x, y);
    }
  }

  lemma SlotIs(a: Area, x: nat, y: nat)
    requires a.Ok() && a.Has(x, y)
    ensures Slot(a, x, y) == (y - a.top) * (a.right - a.left) + (x - a.left)
  {}

  // ----- the geometry of a cell

  datatype Point = Point(x: real, y: real)

  /** The position stored for a vertex. */
  function Position(width: nat, k: nat): Point
    requires width > 0
  {
    var v := Vertex(width, k);
    Point(v.0 as real, v.1 as real)
  }

  /** Negative when p is to the right of the line from a to b. */
  function Side(a: Point, b: Point, p: Point): real {
    (b.x - a.x) * (p.y - a.y) - (b.y - a.y) * (p.x - a.x)
  }

  /** The point lies in the triangle, whose vertices are in clockwise order. */
  predicate InTriangle(a: Point, b: Point, c: Point, p: Point) {
    Side(a, b, p) <= 0.0 && Side(b, c, p) <= 0.0 && Side(c, a, p) <= 0.0
  }

  predicate InTile(tile: Tile, width: nat, t: nat, p: Point)
    requires width > 0 && |tile.indices| == 6 && t < 2
  {
    InTriangle(Position(width, tile.indices[3 * t]), Position(width, tile.indices[3 * t + 1]),
               Position(width, tile.indices[3 * t + 2]), p)
  }

  /** A point of the grid is a vertex of the grid. */
  lemma Corner(width: nat, height: nat, u: nat, v: nat)
    requires u < width && v < height
    ensures u + v * width < width * height && Position(width, u + v * width) == Point(u as real, v as real)
  {
    IndexInGrid(Size(width, height), u, v);
    IndexInverse(Size(width, height), u, v);
  }

  lemma SideAt(a: Point, b: Point, p: Point, dx: real, dy: real)
    requires b.x - a.x == dx && b.y - a.y == dy
    ensures Side(a, b, p) == dx * (p.y - a.y) - dy * (p.x - a.x)
  {}

  /** The two triangles of a cell, both clockwise, cover the cell and nothing
      else, and share only its diagonal. */
  lemma TrianglesCover(width: nat, height: nat, x: nat, y: nat, p: Point)
    requires x + 1 < width && y + 1 < height
    ensures var tile := CellTile(width, x, y);
            && (forall i :: 0 <= i < 6 ==> tile.indices[i] < width * height)
            && (InTile(tile, width, 0, p) || InTile(tile, width, 1, p) <==>
                x as real <= p.x <= (x + 1) as real && y as real <= p.y <= (y + 1) as real)
            && (InTile(tile, width, 0, p) && InTile(tile, width, 1, p) ==> (p.x - x as real) + (p.y - y as real) == 1.0)
  {
    Corner(width, height, x, y);
    Corner(width, height, x + 1, y);
    Corner(width, height, x, y + 1);
    Corner(width, height, x + 1, y + 1);
    hide Position;
    UnitCell(x as real, y as real, p);
  }

  lemma UnitCell(x: real, y: real, p: Point)
    ensures var lowerLeft, lowerRight, topLeft, topRight := Point(x, y), Point(x + 1.0, y), Point(x, y + 1.0), Point(x + 1.0, y + 1.0);
            && (InTriangle(topLeft, lowerRight, lowerLeft, p) <==>
                x <= p.x && y <= p.y && (p.x - x) + (p.y - y) <= 1.0)
            && (InTriangle(topLeft, topRight, lowerRight, p) <==>
                p.x <= x + 1.0 && p.y <= y + 1.0 && (p.x - x) + (p.y - y) >= 1.0)
  {
    hide Side;
    var lowerLeft, lowerRight, topLeft, topRight := Point(x, y), Point(x + 1.0, y), Point(x, y + 1.0), Point(x + 1.0, y + 1.0);
    SideAt(topLeft, lowerRight, p, 1.0, -1.0);
    SideAt(lowerRight, lowerLeft, p, -1.0, 0.0);
    SideAt(lowerLeft, topLeft, p, 0.0, 1.0);
    SideAt(topLeft, topRight, p, 1.0, 0.0);
    SideAt(topRight, lowerRight, p, 0.0, -1.0);
    SideAt(lowerRight, topLeft, p, -1.0, 1.0);
    assert Side(topLeft, lowerRight, p) == (p.y - y - 1.0) + (p.x - x) == -Side(lowerRight, topLeft, p);
    assert Side(lowerRight, lowerLeft, p) == y - p.y && Side(lowerLeft, topLeft, p) == x - p.x;
    assert Side(topLeft, topRight, p) == p.y - y - 1.0 && Side(topRight, lowerRight, p) == p.x - x - 1.0;
  }

  // ----- the height map

  class OpenGLHeightmap {
    const width: nat
    const height: nat
    const vertices: array<(nat, nat)>
    const topLeft: array<Tile>
    const topRight: array<Tile>
    const bottomLeft: array<Tile>
    const bottomRight: array<Tile>

    ghost predicate Allocated() {
      var halfWidth, halfHeight := width / 2, height / 2;
      && width >= 1 && height >= 1
      && vertices.Length == Size(width, height).Cells()
      && topLeft.Length == Size(halfWidth, halfHeight).Cells()
      && topRight.Length == Size(width - halfWidth - 1, halfHeight).Cells()
      && bottomLeft.Length == Size(halfWidth, height - halfHeight - 1).Cells()
      && bottomRight.Length == Size(width - halfWidth - 1, height - halfHeight - 1).Cells()
      && topLeft != topRight && topLeft != bottomLeft && topLeft != bottomRight
      && topRight != bottomLeft && topRight != bottomRight && bottomLeft != bottomRight
    }

    constructor (width: nat, height: nat)
      requires width >= 1 && height >= 1
      ensures Allocated() && this.width == width && this.height == height
      ensures fresh(vertices) && fresh(topLeft) && fresh(topRight) && fresh(bottomLeft) && fresh(bottomRight)
    {
      var halfWidth, halfHeight := width / 2, height / 2;
      this.width, this.height := width, height;
      vertices := new (nat, nat)[Size(width, height).Cells()];
      topLeft := new Tile[Size(halfWidth, halfHeight).Cells()];
      topRight := new Tile[Size(width - halfWidth - 1, halfHeight).Cells()];
      bottomLeft := new Tile[Size(halfWidth, height - halfHeight - 1).Cells()];
      bottomRight := new Tile[Size(width - halfWidth - 1, height - halfHeight - 1).Cells()];
    }

    /** Fills the four arrays and the vertices, exactly as far as they go. */
    method Init()
      requires Allocated()
      modifies vertices, topLeft, topRight, bottomLeft, bottomRight
      ensures Initialized()
      ensures forall k: nat :: k < vertices.Length ==> vertices[k] == Vertex(width, k)
    {
      hide Filled;
      FillTiles(topLeft, Quadrant(width, height, 0), width);
      FillTiles(topRight, Quadrant(width, height, 1), width);
      FillTiles(bottomLeft, Quadrant(width, height, 2), width);
      FillTiles(bottomRight, Quadrant(width, height, 3), width);
      FillVertices();
    }

    /** As created and initialized. */
    ghost predicate Initialized()
      reads topLeft, topRight, bottomLeft, bottomRight
    {
      && Allocated()
      && Filled(topLeft[..], Quadrant(width, height, 0), width) && Filled(topRight[..], Quadrant(width, height, 1), width)
      && Filled(bottomLeft[..], Quadrant(width, height, 2), width) && Filled(bottomRight[..], Quadrant(width, height, 3), width)
    }

    /** Draws the quadrants that the mode asks for, one array after the other:
        the cells of these quadrants and no others. */
    method Draw(mode: bv4) returns (drawn: seq<Tile>)
      requires Initialized()
      ensures drawn == Part(mode, 0, topLeft[..]) + Part(mode, 1, topRight[..])
                       + Part(mode, 2, bottomLeft[..]) + Part(mode, 3, bottomRight[..])
      ensures forall x: nat, y: nat :: x + 1 < width && y + 1 < height ==>
                (CellTile(width, x, y) in drawn <==>
                 exists q: nat :: q < 4 && Asks(mode, q) && Quadrant(width, height, q).Has(x, y))
    {
      hide Filled, CellTile, Quadrant;
      drawn := [];
      if mode & 1 != 0 { drawn := drawn + topLeft[..]; }
      if mode & 2 != 0 { drawn := drawn + topRight[..]; }
      if mode & 4 != 0 { drawn := drawn + bottomLeft[..]; }
      if mode & 8 != 0 { drawn := drawn + bottomRight[..]; }
      DrawnExactly(mode, width, height, topLeft[..], topRight[..], bottomLeft[..], bottomRight[..]);
    }

    method FillVertices()
      requires Allocated()
      modifies vertices
      ensures forall k: nat :: k < vertices.Length ==> vertices[k] == Vertex(width, k)
    {
      hide Vertex;
      var g := Size(width, height);
      for y := 0 to height
        invariant forall k: nat :: k < y * width && k < vertices.Length ==> vertices[k] == Vertex(width, k)
      {
        FillLine(y);
        assert (y + 1) * width == y * width + width;
      }
      assert g.Cells() == height * width;
    }

    /** One row, behind those that are filled. */
    method FillLine(y: nat)
      requires Allocated() && y < height
      modifies vertices
      ensures forall k: nat :: k < y * width && k < vertices.Length ==> vertices[k] == old(vertices[k])
      ensures forall k: nat :: y * width <= k < y * width + width && k < vertices.Length ==> vertices[k] == Vertex(width, k)
    {
      hide Vertex, Index, Size.Cells;
      ghost var row: nat := y * width;
      for x := 0 to width
        invariant forall k: nat :: k < row && k < vertices.Length ==> vertices[k] == old(vertices[k])
        invariant forall k: nat :: row <= k < row + x && k < vertices.Length ==> vertices[k] == Vertex(width, k)
      {
        VertexAt(Size(width, height), x, y);
        vertices[y * width + x] := (x, y);
      }
    }
  }

  /** The bits of a draw mode ask for top left, top right, bottom left and
      bottom right. */
  predicate Asks(mode: bv4, q: nat) {
    match q
    case 0 => mode & 1 != 0
    case 1 => mode & 2 != 0
    case 2 => mode & 4 != 0
    case 3 => mode & 8 != 0
    case _ => false
  }

  lemma CellsDiffer(width: nat, x: nat, y: nat, x1: nat, y1: nat)
    requires x < width && x1 < width && CellTile(width, x, y) == CellTile(width, x1, y1)
    ensures x == x1 && y == y1
  {
    assert CellTile(width, x, y).indices[2] == x + y * width && CellTile(width, x1, y1).indices[2] == x1 + y1 * width;
    IndexInverse(Size(width, 0), x, y);
    IndexInverse(Size(width, 0), x1, y1);
  }

  /** The array of a quadrant holds the tile of a cell if and only if the cell
      is in it. */
  lemma HeldExactly(tiles: seq<Tile>, width: nat, height: nat, q: nat, x: nat, y: nat)
    requires width >= 1 && height >= 1 && q < 4 && x + 1 < width && y + 1 < height
    requires Filled(tiles, Quadrant(width, height, q), width)
    ensures CellTile(width, x, y) in tiles <==> Quadrant(width, height, q).Has(x, y)
  {
    hide CellTile, Index;
    var a := Quadrant(width, height, q);
    if i: nat :| i < |tiles| && tiles[i] == CellTile(width, x, y) {
      var x1, y1 := OneCell(a, i);
      CellsDiffer(width, x, y, x1, y1);
    }
  }

  function Part(mode: bv4, q: nat, tiles: seq<Tile>): seq<Tile> {
    if Asks(mode, q) then tiles else []
  }

  /** A mode draws the tiles of the cells in the quadrants that it asks for. */
  lemma DrawnExactly(mode: bv4, width: nat, height: nat, t0: seq<Tile>, t1: seq<Tile>, t2: seq<Tile>, t3: seq<Tile>)
    requires width >= 1 && height >= 1
    requires Filled(t0, Quadrant(width, height, 0), width) && Filled(t1, Quadrant(width, height, 1), width)
    requires Filled(t2, Quadrant(width, height, 2), width) && Filled(t3, Quadrant(width, height, 3), width)
    ensures forall x: nat, y: nat :: x + 1 < width && y + 1 < height ==>
              (CellTile(width, x, y) in Part(mode, 0, t0) + Part(mode, 1, t1) + Part(mode, 2, t2) + Part(mode, 3, t3) <==>
               exists q: nat :: q < 4 && Asks(mode, q) && Quadrant(width, height, q).Has(x, y))
  {
    hide Filled, CellTile, Quadrant, Asks;
    forall x: nat, y: nat | x + 1 < width && y + 1 < height
      ensures CellTile(width, x, y) in Part(mode, 0, t0) + Part(mode, 1, t1) + Part(mode, 2, t2) + Part(mode, 3, t3) <==>
              exists q: nat :: q < 4 && Asks(mode, q) && Quadrant(width, height, q).Has(x, y)
    {
      HeldExactly(t0, width, height, 0, x, y);
      HeldExactly(t1, width, height, 1, x, y);
      HeldExactly(t2, width, height, 2, x, y);
      HeldExactly(t3, width, height, 3, x, y);
    }
  }

  /** The coordinates of a vertex. */
  function Vertex(width: nat, k: nat): (nat, nat)
    requires width > 0
  {
    (k % width, k / width)
  }

  lemma VertexAt(g: Size, x: nat, y: nat)
    requires x < g.width
    ensures Vertex(g.width, y * g.width + x) == (x, y)
    ensures y < g.height ==> y * g.width + x < g.Cells()
  {
    IndexInverse(g, x, y);
    if y < g.height { IndexInGrid(g, x, y); }
  }
}
