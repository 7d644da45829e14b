/** What a draw mode of a level-of-detail map makes the height map draw. */
module LodQuadrants {
  import opened Quadtrees
  import LodTiles
  import Heightmaps

  /** Where a point of cell (x, y) lies when a height map of cells by cells is
      stretched over the square of a node: from 0 up to 1 across the cell. */
  function Stretched(corner: int, scale: nat, cells: nat, x: nat, u: real): real
    requires cells > 0
  {
    corner as real + (x as real + u) * scale as real / cells as real
  }

  /** The cells of a quadrant of the height map lie in that quadrant of the node. */
  ghost predicate Matches(n: Node, baseLevel: nat) {
    var cells := Scale(baseLevel);
    forall q: nat, x: nat, y: nat, u: real, v: real {:trigger Stretched(n.x, Scale(n.level), cells, x, u), Stretched(n.y, Scale(n.level), cells, y, v), Heightmaps.Quadrant(cells + 1, cells + 1, q)} ::
      q < 4 && x < cells && y < cells && 0.0 <= u < 1.0 && 0.0 <= v < 1.0 ==>
        (Heightmaps.Quadrant(cells + 1, cells + 1, q).Has(x, y) <==>
         InQuadrant(n, q, Stretched(n.x, Scale(n.level), cells, x, u), Stretched(n.y, Scale(n.level), cells, y, v)))
  }

  lemma HalfwayAcross(corner: int, scale: nat, half: nat, x: nat, u: real)
    requires half > 0 && scale > 0 && x < 2 * half && 0.0 <= u < 1.0
    ensures var p := Stretched(corner, scale, 2 * half, x, u);
            && corner as real <= p < corner as real + scale as real
            && (p < corner as real + scale as real / 2.0 <==> x < half)
  {
    assert (x as real + u) < half as real <==> x < half;
    Portion(x as real + u, scale as real, (2 * half) as real);
  }

  lemma Portion(a: real, s: real, n: real)
    requires n > 0.0 && s > 0.0 && 0.0 <= a < n
    ensures 0.0 <= a * s / n < s && (a * s / n < s / 2.0 <==> a < n / 2.0)
  {
    var p := a * s / n;
    assert p * n == a * s;
    Ordered(p, s, n, a);
  }

  lemma Ordered(p: real, s: real, n: real, a: real)
    requires n > 0.0 && s > 0.0 && 0.0 <= a < n && p * n == a * s
    ensures 0.0 <= p < s && (p < s / 2.0 <==> a < n / 2.0)
  {
    assert a * s < n * s && 0.0 <= a * s;
    assert p < 0.0 ==> p * n < 0.0;
    assert p >= s ==> p * n >= s * n;
    assert p < s / 2.0 ==> p * n < s / 2.0 * n;
    assert p >= s / 2.0 ==> p * n >= s / 2.0 * n;
    assert a < n / 2.0 ==> a * s < n / 2.0 * s;
    assert a >= n / 2.0 ==> a * s >= n / 2.0 * s;
  }

  lemma InHalf(corner: int, scale: nat, half: nat, x: nat, u: real, bit: nat)
    requires half > 0 && scale > 0 && x < 2 * half && 0.0 <= u < 1.0 && bit < 2
    ensures var p, h := Stretched(corner, scale, 2 * half, x, u), scale as real / 2.0;
            corner as real + bit as real * h <= p < corner as real + bit as real * h + h <==> (x < half <==> bit == 0)
  {
    HalfwayAcross(corner, scale, half, x, u);
    hide Stretched;
    assert bit == 0 || bit == 1;
  }

  /** So a mask draws the quadrants it shows, if and only if a tile has more
      than one cell: the only cell of a height map of two by two vertices is
      all in its top left quadrant. */
  lemma MatchesExactly(n: Node, baseLevel: nat)
    ensures Matches(n, baseLevel) <==> baseLevel > 0
  {
    var cells := Scale(baseLevel);
    if baseLevel > 0 {
      forall q: nat, x: nat, y: nat, u: real, v: real | q < 4 && x < cells && y < cells && 0.0 <= u < 1.0 && 0.0 <= v < 1.0
        ensures Heightmaps.Quadrant(cells + 1, cells + 1, q).Has(x, y) <==>
                InQuadrant(n, q, Stretched(n.x, Scale(n.level), cells, x, u), Stretched(n.y, Scale(n.level), cells, y, v))
      {
        CellMatches(n, Scale(baseLevel - 1), q, x, y, u, v);
      }
    } else {
      OneCellOnly(n);
    }
  }

  lemma CellMatches(n: Node, half: nat, q: nat, x: nat, y: nat, u: real, v: real)
    requires half > 0 && q < 4 && x < 2 * half && y < 2 * half && 0.0 <= u < 1.0 && 0.0 <= v < 1.0
    ensures Heightmaps.Quadrant(2 * half + 1, 2 * half + 1, q).Has(x, y) <==>
            InQuadrant(n, q, Stretched(n.x, Scale(n.level), 2 * half, x, u), Stretched(n.y, Scale(n.level), 2 * half, y, v))
  {
    InHalf(n.x, Scale(n.level), half, x, u, q % 2);
    InHalf(n.y, Scale(n.level), half, y, v, q / 2);
    hide Stretched, Scale;
    assert (2 * half + 1) / 2 == half;
  }

  lemma OneCellOnly(n: Node)
    ensures !Matches(n, 0)
  {
    var q: nat, x: nat, u, cells: nat := 3, 0, 0.5, 1;
    assert Scale(0) == cells;
    assert InQuadrant(n, q, Stretched(n.x, Scale(n.level), cells, x, u), Stretched(n.y, Scale(n.level), cells, x, u));
    assert !Heightmaps.Quadrant(cells + 1, cells + 1, q).Has(x, x);
  }

  lemma SameBits(mode: bv4, q: nat)
    requires q < 4
    ensures LodTiles.Shows(mode, q) <==> Heightmaps.Asks(mode, q)
  {
    assert q == 0 || q == 1 || q == 2 || q == 3;
  }
}
