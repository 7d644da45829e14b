/** Grids of reals stored row by row, and the cells that the passes of
    src/modules/erosion/erosion.c visit around one cell. */
module Grids {

  /** The width and the height of an image. */
  datatype Size = Size(width: nat, height: nat) {
    predicate Fits() {
      width < UINT_RANGE && height < UINT_RANGE
    }
    function Cells(): nat {
      width * height
    }
  }

  /** The values of an unsigned int. */
  const UINT_RANGE: nat := 0x1_0000_0000

  function Index(g: Size, x: nat, y: nat): nat {
    y * g.width + x
  }

  lemma IndexInGrid(g: Size, x: nat, y: nat)
    requires x < g.width && y < g.height
    ensures Index(g, x, y) < g.Cells()
    ensures y * g.width <= Index(g, x, y) < (y + 1) * g.width
  {
    assert (y + 1) * g.width <= g.height * g.width;
  }

  lemma RowFits(g: Size, x: nat, y: nat)
    requires x <= g.width && y < g.height
    ensures Index(g, 0, y) <= Index(g, x, y) <= g.Cells() && (x > 0 ==> Index(g, x, y) == Index(g, x - 1, y) + 1)
    ensures Index(g, g.width, y) == Index(g, 0, y + 1)
  {
    assert (y + 1) * g.width <= g.height * g.width;
  }

  lemma IndexInverse(g: Size, x: nat, y: nat)
    requires x < g.width
    ensures Index(g, x, y) % g.width == x && Index(g, x, y) / g.width == y
  {
    var k := Index(g, x, y);
    OneQuotient(g.width, k / g.width, k % g.width, y, x, k);
  }

  lemma OneQuotient(w: nat, q: nat, r: nat, y: nat, x: nat, k: nat)
    requires r < w && x < w && k == q * w + r && k == y * w + x
    ensures q == y && r == x
  {
    if q < y {
      Products(q + 1, y, w);
    } else if y < q {
      Products(y + 1, q, w);
    }
  }

  lemma Products(a: nat, b: nat, w: nat)
    requires a <= b
    ensures a * w <= b * w
  {}

  lemma RowAndColumn(g: Size, i: nat)
    requires i < g.Cells()
    ensures g.width > 0 && i / g.width < g.height && Index(g, i % g.width, i / g.width) == i
  {
    assert g.width > 0;
    assert i == (i / g.width) * g.width + i % g.width;
    var row := i / g.width;
    assert row >= g.height ==> row * g.width >= g.height * g.width;
  }

  /** The column and the row of a cell. */
  function At(g: Size, i: nat): (cell: (nat, nat))
    requires i < g.Cells()
    ensures cell.0 < g.width && cell.1 < g.height && Index(g, cell.0, cell.1) == i
  {
    RowAndColumn(g, i);
    (i % g.width, i / g.width)
  }

  // ----- sums

  function Sum(s: seq<real>): real {
    if s == [] then 0.0 else Sum(s[..|s| - 1]) + s[|s| - 1]
  }

  lemma {:induction false} SumUpdate(s: seq<real>, i: nat, v: real)
    requires i < |s|
    ensures Sum(s[i := v]) == Sum(s) - s[i] + v
  {
    var n := |s| - 1;
    if i == n {
      assert s[i := v][..n] == s[..n];
    } else {
      assert s[i := v][..n] == s[..n][i := v];
      SumUpdate(s[..n], i, v);
    }
  }

  /** Pointwise sums and differences carry over to the whole. */
  lemma {:induction false} SumPointwise(a: seq<real>, b: seq<real>, c: seq<real>, d: seq<real>)
    requires |a| == |b| == |c| == |d|
    requires forall k :: 0 <= k < |a| ==> a[k] + b[k] == c[k] + d[k]
    ensures Sum(a) + Sum(b) == Sum(c) + Sum(d)
  {
    if a != [] {
      var n := |a| - 1;
      SumPointwise(a[..n], b[..n], c[..n], d[..n]);
    }
  }

  // ----- stencils

  /** `v - 1` in unsigned arithmetic; the MAX with 0 around it changes nothing. */
  function Low(v: nat): nat
    requires v < UINT_RANGE
  {
    (v + UINT_RANGE - 1) % UINT_RANGE
  }

  function High(v: nat, n: nat): nat
    requires v < UINT_RANGE
  {
    var v2 := (v + 2) % UINT_RANGE;
    if v2 < n then v2 else n
  }

  /** The unsigned bounds of the loops, and where they wrap around. */
  lemma LoopBounds(v: nat, n: nat)
    requires v <= 0xffff_ffff
    ensures v < UINT_RANGE && Low(v) == if v == 0 then 0xffff_ffff else v - 1
    ensures var end := if v <= 0xffff_fffd then v + 2 else v - 0xffff_fffe; High(v, n) == if end < n then end else n
  {}

  /** The cells of row i from column j0 up to column j, without cell (x, y). */
  function Row(g: Size, x: nat, y: nat, i: nat, j0: nat, j: nat): seq<nat> {
    if j <= j0 then []
    else Row(g, x, y, i, j0, j - 1) + (if j - 1 == x && i == y then [] else [Index(g, j - 1, i)])
  }

  /** The same for the rows from i0 up to i, one after the other. */
  function Rows(g: Size, x: nat, y: nat, i0: nat, i: nat, j0: nat, j1: nat): seq<nat> {
    if i <= i0 then [] else Rows(g, x, y, i0, i - 1, j0, j1) + Row(g, x, y, i - 1, j0, j1)
  }

  /** The cells around (x, y), in the order in which the loops visit them. */
  function Stencil(g: Size, x: nat, y: nat): seq<nat>
    requires g.Fits() && x < g.width && y < g.height
  {
    Rows(g, x, y, Low(y), High(y, g.height), Low(x), High(x, g.width))
  }

  /** Cell k is one of the up to eight cells around (x, y). */
  ghost predicate Neighbour(g: Size, x: nat, y: nat, k: nat) {
    exists j: nat, i: nat :: j < g.width && i < g.height && k == Index(g, j, i)
                             && x - 1 <= j <= x + 1 && y - 1 <= i <= y + 1 && !(j == x && i == y)
  }

  /** Where the unsigned loop bounds do not wrap around. */
  predicate Inner(x: nat, y: nat) {
    x > 0 && y > 0 && x + 2 < UINT_RANGE && y + 2 < UINT_RANGE
  }

  lemma {:induction false} RowExactly(g: Size, x: nat, y: nat, i: nat, j0: nat, j: nat, k: nat)
    requires j0 <= j
    ensures k in Row(g, x, y, i, j0, j) <==>
            exists b: nat :: j0 <= b < j && k == Index(g, b, i) && !(b == x && i == y)
    decreases j
  {
    hide Index;
    if j > j0 { RowExactly(g, x, y, i, j0, j - 1, k); }
  }

  lemma {:induction false} RowsExactly(g: Size, x: nat, y: nat, i0: nat, i: nat, j0: nat, j1: nat, k: nat)
    requires i0 <= i && j0 <= j1
    ensures k in Rows(g, x, y, i0, i, j0, j1) <==>
            exists a: nat, b: nat :: i0 <= a < i && j0 <= b < j1 && k == Index(g, b, a) && !(b == x && a == y)
    decreases i
  {
    hide Index, Row;
    if i > i0 {
      RowsExactly(g, x, y, i0, i - 1, j0, j1, k);
      RowExactly(g, x, y, i - 1, j0, j1, k);
    }
  }

  lemma InnerStencil(g: Size, x: nat, y: nat, k: nat)
    requires g.Fits() && x < g.width && y < g.height && Inner(x, y)
    ensures k in Stencil(g, x, y) <==> Neighbour(g, x, y, k)
  {
    var top, left, bottom, right := y - 1, x - 1, High(y, g.height), High(x, g.width);
    assert Low(y) == top && Low(x) == left;
    assert bottom == (if y + 2 < g.height then y + 2 else g.height) && right == (if x + 2 < g.width then x + 2 else g.width);
    RowsExactly(g, x, y, top, bottom, left, right, k);
    hide Index, Rows, High, Low;
  }

  lemma OuterStencil(g: Size, x: nat, y: nat)
    requires g.Fits() && x < g.width && y < g.height && !Inner(x, y)
    ensures Stencil(g, x, y) == []
  {
    if x == 0 || y == 0 {
      BorderStencil(g, x, y);
    } else if x + 2 == UINT_RANGE {
      assert High(x, g.width) == 0;
      NoColumns(g, x, y, Low(y), High(y, g.height), Low(x), High(x, g.width));
    } else {
      assert High(y, g.height) == 0;
    }
  }

  /** The cells visited around a cell are exactly its neighbours, unless a loop
      bound wraps around; then there are none. */
  lemma StencilExactly(g: Size, x: nat, y: nat, k: nat)
    requires g.Fits() && x < g.width && y < g.height
    ensures k in Stencil(g, x, y) <==> Inner(x, y) && Neighbour(g, x, y, k)
  {
    hide Stencil, Neighbour;
    if Inner(x, y) {
      InnerStencil(g, x, y, k);
    } else {
      OuterStencil(g, x, y);
    }
  }

  /** In the first row and the first column nothing is visited at all. */
  lemma BorderStencil(g: Size, x: nat, y: nat)
    requires g.Fits() && x < g.width && y < g.height && (x == 0 || y == 0)
    ensures Stencil(g, x, y) == []
  {
    if x == 0 {
      NoColumns(g, x, y, Low(y), High(y, g.height), Low(x), High(x, g.width));
    }
  }

  lemma {:induction false} NoColumns(g: Size, x: nat, y: nat, i0: nat, i: nat, j0: nat, j1: nat)
    requires j1 <= j0
    ensures Rows(g, x, y, i0, i, j0, j1) == []
    decreases i
  {
    if i > i0 {
      NoColumns(g, x, y, i0, i - 1, j0, j1);
    }
  }

  predicate Below(s: seq<nat>, n: nat) {
    forall k :: 0 <= k < |s| ==> s[k] < n
  }

  /** Increasing indices from lo up to hi, without c. */
  predicate Ascending(s: seq<nat>, lo: nat, hi: nat, c: nat) {
    && (forall k :: 0 <= k < |s| ==> lo <= s[k] < hi && s[k] != c)
    && (forall k, l :: 0 <= k < l < |s| ==> s[k] < s[l])
  }

  lemma {:induction false} RowAscending(g: Size, x: nat, y: nat, i: nat, j0: nat, j: nat)
    requires x < g.width && j <= g.width
    ensures Ascending(Row(g, x, y, i, j0, j), i * g.width, i * g.width + j, Index(g, x, y))
  {
    if j > j0 {
      RowAscending(g, x, y, i, j0, j - 1);
      if j - 1 != x || i != y {
        if Index(g, j - 1, i) == Index(g, x, y) {
          IndexInverse(g, x, y);
          IndexInverse(g, j - 1, i);
        }
      }
    }
  }

  lemma {:induction false} RowsAscending(g: Size, x: nat, y: nat, i0: nat, i: nat, j0: nat, j1: nat)
    requires x < g.width && j1 <= g.width
    ensures Ascending(Rows(g, x, y, i0, i, j0, j1), 0, i * g.width, Index(g, x, y))
  {
    if i > i0 {
      RowsAscending(g, x, y, i0, i - 1, j0, j1);
      RowAscending(g, x, y, i - 1, j0, j1);
      assert (i - 1) * g.width + g.width == i * g.width;
    }
  }

  lemma RowsInGrid(g: Size, x: nat, y: nat, i0: nat, i: nat, j0: nat, j1: nat)
    requires x < g.width && j1 <= g.width && i <= g.height
    ensures Below(Rows(g, x, y, i0, i, j0, j1), g.Cells())
    ensures Ascending(Rows(g, x, y, i0, i, j0, j1), 0, g.Cells(), Index(g, x, y))
  {
    hide Rows, Index;
    RowsAscending(g, x, y, i0, i, j0, j1);
    RowsEnd(g, i);
  }

  lemma RowsEnd(g: Size, i: nat)
    requires i <= g.height
    ensures i * g.width <= g.Cells()
  {}

  /** Every cell around (x, y) is in the grid, is another one, and comes once. */
  lemma StencilAscending(g: Size, x: nat, y: nat)
    requires g.Fits() && x < g.width && y < g.height
    ensures Ascending(Stencil(g, x, y), 0, g.Cells(), Index(g, x, y)) && Below(Stencil(g, x, y), g.Cells())
    ensures Index(g, x, y) < g.Cells()
  {
    IndexInGrid(g, x, y);
    hide Rows, Index, Ascending, Below;
    RowsInGrid(g, x, y, Low(y), High(y, g.height), Low(x), High(x, g.width));
  }

  /** What two nested loops over a stencil have visited at row i, column j. */
  function Visited(g: Size, x: nat, y: nat, i: nat, j: nat): seq<nat>
    requires g.Fits() && x < g.width && y < g.height
  {
    Rows(g, x, y, Low(y), i, Low(x), High(x, g.width)) + Row(g, x, y, i, Low(x), j)
  }

  lemma VisitedBegins(g: Size, x: nat, y: nat, i: nat)
    requires g.Fits() && x < g.width && y < g.height
    ensures Visited(g, x, y, i, Low(x)) == Rows(g, x, y, Low(y), i, Low(x), High(x, g.width))
  {}

  lemma VisitedNext(g: Size, x: nat, y: nat, i: nat, j: nat)
    requires g.Fits() && x < g.width && y < g.height && i < g.height && Low(x) <= j < g.width
    ensures Visited(g, x, y, i, j + 1) == Visited(g, x, y, i, j) + if j == x && i == y then [] else [Index(g, j, i)]
    ensures Index(g, j, i) < g.Cells() && Below(Visited(g, x, y, i, j), g.Cells())
  {
    IndexInGrid(g, j, i);
    RowsInGrid(g, x, y, Low(y), i, Low(x), High(x, g.width));
    RowAscending(g, x, y, i, Low(x), j);
    IndexIsRowPlusColumn(g, i, j);
    hide Rows, Index;
  }

  lemma IndexIsRowPlusColumn(g: Size, i: nat, j: nat)
    requires i < g.height && j < g.width
    ensures i * g.width + j <= g.Cells()
  {
    IndexInGrid(g, j, i);
  }

  lemma VisitedRow(g: Size, x: nat, y: nat, i: nat, j: nat)
    requires g.Fits() && x < g.width && y < g.height && Low(y) <= i < g.height
    requires j >= High(x, g.width) && (j == High(x, g.width) || j == Low(x))
    ensures Visited(g, x, y, i, j) == Rows(g, x, y, Low(y), i + 1, Low(x), High(x, g.width))
    ensures Below(Visited(g, x, y, i, j), g.Cells())
  {
    RowsInGrid(g, x, y, Low(y), i + 1, Low(x), High(x, g.width));
    hide Index, Ascending, Below, Size.Cells;
    if j > High(x, g.width) {
      EmptyRow(g, x, y, i, Low(x), j, High(x, g.width));
    }
  }

  lemma EmptyRow(g: Size, x: nat, y: nat, i: nat, j0: nat, j: nat, j1: nat)
    requires j <= j0 && j1 <= j0
    ensures Row(g, x, y, i, j0, j) == Row(g, x, y, i, j0, j1)
  {}

  lemma HighBound(v: nat, n: nat)
    requires v < UINT_RANGE
    ensures High(v, n) <= n
  {}

  /** The loops end having visited the stencil. */
  lemma VisitedAll(g: Size, x: nat, y: nat, i: nat)
    requires g.Fits() && x < g.width && y < g.height
    requires i >= High(y, g.height) && (i == High(y, g.height) || i == Low(y))
    ensures Rows(g, x, y, Low(y), i, Low(x), High(x, g.width)) == Stencil(g, x, y)
  {}
}

/** How a cell shares an amount among the lower cells around it, in proportion
    to the differences; both kinds of erosion do it this way. */
module Sharing {
  import opened Grids

  predicate Around(s: seq<real>, c: nat, ns: seq<nat>) {
    c < |s| && Ascending(ns, 0, |s|, c) && Below(ns, |s|)
  }

  lemma AroundPrefix(s: seq<real>, c: nat, ns: seq<nat>)
    requires Around(s, c, ns) && ns != []
    ensures var n := |ns| - 1;
            && Around(s, c, ns[..n]) && ns[n] !in ns[..n] && ns[n] < |s|
            && forall k :: k in ns <==> k in ns[..n] || k == ns[n]
  {
    var n := |ns| - 1;
    assert ns == ns[..n] + [ns[n]];
  }

  lemma AroundNotSelf(s: seq<real>, c: nat, ns: seq<nat>)
    requires Around(s, c, ns)
    ensures c !in ns
  {}

  /** The sum of the height differences above the threshold. */
  function Total(s: seq<real>, h: real, ns: seq<nat>, T: real): real
    requires Below(ns, |s|)
  {
    if ns == [] then 0.0
    else
      var d := h - s[ns[|ns| - 1]];
      Total(s, h, ns[..|ns| - 1], T) + if d > T then d else 0.0
  }

  /** What one cell receives of the amount `moved`. */
  function Share(moved: real, d: real, total: real): real
    requires total != 0.0
  {
    moved * d / total
  }

  lemma ShareAdds(moved: real, a: real, b: real, total: real)
    requires total != 0.0
    ensures Share(moved, a, total) + Share(moved, b, total) == Share(moved, a + b, total)
    ensures Share(moved, 0.0, total) == 0.0 && Share(moved, total, total) == moved
  {}

  lemma ShareBounds(moved: real, d: real, total: real)
    requires 0.0 <= moved <= total && total > 0.0 && d >= 0.0
    ensures 0.0 <= Share(moved, d, total) <= d
  {
    assert moved * d <= total * d;
    assert moved * d / total <= total * d / total;
    assert total * d / total == d;
  }
}
