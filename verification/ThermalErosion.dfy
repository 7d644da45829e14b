/** Thermal erosion, src/modules/erosion/erosion.c: material slides from a cell
    to the lower ones around it where the slope exceeds a threshold T. */
module ThermalErosion {
  import opened Grids
  import opened Sharing

  /** The largest of them, or zero. */
  function Most(s: seq<real>, h: real, ns: seq<nat>, T: real): real
    requires Below(ns, |s|)
  {
    if ns == [] then 0.0
    else
      var d, most := h - s[ns[|ns| - 1]], Most(s, h, ns[..|ns| - 1], T);
      if d > T && d > most then d else most
  }

  /** The cells of ns, in turn, receive their share of the amount `moved`. */
  function Give(s: seq<real>, h: real, ns: seq<nat>, T: real, moved: real, total: real): (r: seq<real>)
    requires total != 0.0
    requires Below(ns, |s|)
    ensures |r| == |s|
  {
    if ns == [] then s
    else
      var s1, k := Give(s, h, ns[..|ns| - 1], T, moved, total), ns[|ns| - 1];
      var d := h - s1[k];
      if d > T then s1[k := s1[k] + Share(moved, d, total)] else s1
  }

  /** One cell c gives to the cells ns around it. */
  function ErodeCell(s: seq<real>, c: nat, ns: seq<nat>, T: real): (r: seq<real>)
    requires c < |s| && Below(ns, |s|)
    ensures |r| == |s|
  {
    var total, most := Total(s, s[c], ns, T), Most(s, s[c], ns, T);
    if total > 0.0 then
      Give(s, s[c], ns, T, 0.5 * (most - T), total)[c := s[c] - 0.5 * (most - T)]
    else s
  }

  /** Each cell receives once, from the height it had before. */
  lemma {:induction false} GiveAt(s: seq<real>, c: nat, h: real, ns: seq<nat>, T: real, moved: real, total: real, k: nat)
    requires Around(s, c, ns) && total != 0.0 && k < |s|
    ensures Give(s, h, ns, T, moved, total)[k] ==
            if k in ns && h - s[k] > T then s[k] + Share(moved, h - s[k], total) else s[k]
    decreases |ns|
  {
    hide Share;
    if ns != [] {
      var n := |ns| - 1;
      AroundPrefix(s, c, ns);
      hide Ascending;
      GiveAt(s, c, h, ns[..n], T, moved, total, k);
      var s1, i := Give(s, h, ns[..n], T, moved, total), ns[n];
      GiveAt(s, c, h, ns[..n], T, moved, total, i);
      assert s1[i] == s[i];
      assert k in ns <==> k in ns[..n] || k == i;
    }
  }

  lemma {:induction false} GiveSum(s: seq<real>, c: nat, h: real, ns: seq<nat>, T: real, moved: real, total: real)
    requires Around(s, c, ns) && total != 0.0
    ensures Sum(Give(s, h, ns, T, moved, total)) == Sum(s) + Share(moved, Total(s, h, ns, T), total)
    decreases |ns|
  {
    hide Share, Sum;
    ShareAdds(moved, 0.0, 0.0, total);
    if ns != [] {
      var n := |ns| - 1;
      var k := ns[n];
      AroundPrefix(s, c, ns);
      hide Ascending;
      GiveSum(s, c, h, ns[..n], T, moved, total);
      GiveAt(s, c, h, ns[..n], T, moved, total, k);
      var s1 := Give(s, h, ns[..n], T, moved, total);
      assert s1[k] == s[k];
      if h - s[k] > T {
        SumUpdate(s1, k, s1[k] + Share(moved, h - s[k], total));
        ShareAdds(moved, Total(s, h, ns[..n], T), h - s[k], total);
      }
    }
  }

  /** No material is gained or lost. */
  lemma ErodeCellConserves(s: seq<real>, c: nat, ns: seq<nat>, T: real)
    requires Around(s, c, ns)
    ensures Sum(ErodeCell(s, c, ns, T)) == Sum(s)
  {
    hide Share;
    var total, most := Total(s, s[c], ns, T), Most(s, s[c], ns, T);
    if total > 0.0 {
      var moved := 0.5 * (most - T);
      GiveSum(s, c, s[c], ns, T, moved, total);
      GiveAt(s, c, s[c], ns, T, moved, total, c);
      SumUpdate(Give(s, s[c], ns, T, moved, total), c, s[c] - moved);
      ShareAdds(moved, 0.0, 0.0, total);
    }
  }

  /** For a threshold that is not negative the largest difference is attained
      and at most the sum. */
  lemma {:induction false} MostAttained(s: seq<real>, h: real, ns: seq<nat>, T: real)
    requires Below(ns, |s|)
    requires T >= 0.0
    ensures 0.0 <= Most(s, h, ns, T) <= Total(s, h, ns, T)
    ensures forall k :: k in ns && h - s[k] > T ==> h - s[k] <= Most(s, h, ns, T)
    ensures Total(s, h, ns, T) > 0.0 ==> exists k :: k in ns && h - s[k] > T && h - s[k] == Most(s, h, ns, T)
    decreases |ns|
  {
    if ns != [] {
      var n := |ns| - 1;
      MostAttained(s, h, ns[..n], T);
      assert ns == ns[..n] + [ns[n]];
      if Total(s, h, ns[..n], T) > 0.0 {
        var k :| k in ns[..n] && h - s[k] > T && h - s[k] == Most(s, h, ns[..n], T);
        assert k in ns;
      }
      assert ns[n] in ns;
    }
  }

  /** The maximum principle: a bound that holds for the cell and those around
      it still holds afterwards, and no other cell changes. */
  lemma ErodeCellBounded(s: seq<real>, c: nat, ns: seq<nat>, T: real, lo: real, hi: real, k: nat)
    requires Around(s, c, ns) && T >= 0.0 && k < |s|
    requires lo <= s[c] <= hi && forall i :: i in ns ==> lo <= s[i] <= hi
    ensures if k == c || k in ns then lo <= ErodeCell(s, c, ns, T)[k] <= hi
            else ErodeCell(s, c, ns, T)[k] == s[k]
  {
    hide Share;
    var h := s[c];
    var total, most := Total(s, h, ns, T), Most(s, h, ns, T);
    MostAttained(s, h, ns, T);
    if total > 0.0 {
      var moved := 0.5 * (most - T);
      GiveAt(s, c, h, ns, T, moved, total, k);
      var i :| i in ns && h - s[i] > T && h - s[i] == most;
      assert lo <= s[i];
      if k != c && k in ns && h - s[k] > T {
        ShareBounds(moved, h - s[k], total);
      }
    }
  }

  // ----- the update seen from outside

  /** Cell `low` is the lowest of the cells around c, by more than T. */
  predicate Lowest(s: seq<real>, c: nat, ns: seq<nat>, T: real, low: nat)
    requires c < |s| && Below(ns, |s|)
  {
    low in ns && s[c] - s[low] > T && forall k :: k in ns ==> s[k] >= s[low]
  }

  /** Cell c has slid down to the cells ns around it: it lost half of what its
      greatest drop exceeds T by, those more than T lower gained in proportion
      to their drops, and nothing else changed. */
  ghost predicate Slid(s: seq<real>, r: seq<real>, c: nat, ns: seq<nat>, T: real) {
    && |r| == |s| && c < |s| && Below(ns, |s|)
    && (exists low: nat :: Lowest(s, c, ns, T, low))
    && (forall low: nat :: Lowest(s, c, ns, T, low) ==> s[c] - r[c] == (s[c] - s[low] - T) / 2.0)
    && (forall j, k :: j in ns && k in ns && s[c] - s[j] > T && s[c] - s[k] > T ==>
          (r[j] - s[j]) * (s[c] - s[k]) == (r[k] - s[k]) * (s[c] - s[j]))
    && (forall k :: 0 <= k < |s| && k != c && !(k in ns && s[c] - s[k] > T) ==> r[k] == s[k])
    && Sum(r) == Sum(s)
  }

  lemma ShareRatio(moved: real, d: real, e: real, total: real)
    requires total != 0.0
    ensures Share(moved, d, total) * e == Share(moved, e, total) * d
  {
    assert moved * d / total * e == moved * d * e / total;
    assert moved * e / total * d == moved * e * d / total;
  }

  lemma {:induction false} NoDrop(s: seq<real>, h: real, ns: seq<nat>, T: real)
    requires Below(ns, |s|) && forall k :: k in ns ==> h - s[k] <= T
    ensures Total(s, h, ns, T) == 0.0
    decreases |ns|
  {
    if ns != [] { NoDrop(s, h, ns[..|ns| - 1], T); }
  }

  lemma {:induction false} SomeDrop(s: seq<real>, h: real, ns: seq<nat>, T: real, k: nat)
    requires Below(ns, |s|) && T >= 0.0 && k in ns && h - s[k] > T
    ensures Total(s, h, ns, T) > 0.0
    decreases |ns|
  {
    var n := |ns| - 1;
    MostAttained(s, h, ns[..n], T);
    if ns[n] != k { SomeDrop(s, h, ns[..n], T, k); }
  }

  /** Whatever the threshold, drops with a positive sum include the greatest. */
  lemma {:induction false} MostOfAll(s: seq<real>, h: real, ns: seq<nat>, T: real)
    requires Below(ns, |s|)
    ensures Most(s, h, ns, T) >= 0.0 && forall k :: k in ns && h - s[k] > T ==> h - s[k] <= Most(s, h, ns, T)
    ensures Most(s, h, ns, T) > 0.0 ==> exists k :: k in ns && h - s[k] > T && h - s[k] == Most(s, h, ns, T)
    ensures Most(s, h, ns, T) == 0.0 ==> Total(s, h, ns, T) <= 0.0
    decreases |ns|
  {
    if ns != [] {
      var n := |ns| - 1;
      MostOfAll(s, h, ns[..n], T);
      assert ns == ns[..n] + [ns[n]] && ns[n] in ns;
      if Most(s, h, ns[..n], T) > 0.0 {
        var k :| k in ns[..n] && h - s[k] > T && h - s[k] == Most(s, h, ns[..n], T);
        assert k in ns;
      }
    }
  }

  /** A cell slides exactly when the drops of more than T around it have a
      positive sum: for a threshold that is not negative, when there are any. */
  lemma ErodeCellExactly(s: seq<real>, c: nat, ns: seq<nat>, T: real)
    requires Around(s, c, ns)
    ensures if Total(s, s[c], ns, T) > 0.0 then Slid(s, ErodeCell(s, c, ns, T), c, ns, T)
            else ErodeCell(s, c, ns, T) == s
    ensures T >= 0.0 ==> (Total(s, s[c], ns, T) > 0.0 <==> exists k :: k in ns && s[c] - s[k] > T)
  {
    hide Share, Total, Most, Give, Sum, Ascending, Slid;
    var h := s[c];
    if k :| k in ns && h - s[k] > T {
      if T >= 0.0 { SomeDrop(s, h, ns, T, k); }
    } else {
      NoDrop(s, h, ns, T);
    }
    if Total(s, h, ns, T) > 0.0 {
      ErodeCellConserves(s, c, ns, T);
      ErodeCellSlides(s, c, ns, T);
    }
  }

  /** What each cell has after the update. */
  lemma ErodedAt(s: seq<real>, c: nat, ns: seq<nat>, T: real, k: nat)
    requires Around(s, c, ns) && Total(s, s[c], ns, T) > 0.0 && k < |s|
    ensures c !in ns
    ensures var total, moved := Total(s, s[c], ns, T), 0.5 * (Most(s, s[c], ns, T) - T);
            ErodeCell(s, c, ns, T)[k] == if k == c then s[c] - moved
                                         else if k in ns && s[c] - s[k] > T then s[k] + Share(moved, s[c] - s[k], total)
                                         else s[k]
  {
    hide Share, Total, Most, Give, Ascending;
    AroundNotSelf(s, c, ns);
    GiveAt(s, c, s[c], ns, T, 0.5 * (Most(s, s[c], ns, T) - T), Total(s, s[c], ns, T), k);
  }

  lemma ErodedRatio(s: seq<real>, c: nat, ns: seq<nat>, T: real, j: nat, k: nat)
    requires Around(s, c, ns) && Total(s, s[c], ns, T) > 0.0 && j in ns && k in ns && s[c] - s[j] > T && s[c] - s[k] > T
    ensures var r := ErodeCell(s, c, ns, T); (r[j] - s[j]) * (s[c] - s[k]) == (r[k] - s[k]) * (s[c] - s[j])
  {
    hide Share, Total, Most, Ascending, ErodeCell;
    ErodedAt(s, c, ns, T, j);
    ErodedAt(s, c, ns, T, k);
    ShareRatio(0.5 * (Most(s, s[c], ns, T) - T), s[c] - s[j], s[c] - s[k], Total(s, s[c], ns, T));
  }

  lemma ErodedLowest(s: seq<real>, c: nat, ns: seq<nat>, T: real)
    requires Around(s, c, ns) && Total(s, s[c], ns, T) > 0.0
    ensures exists low: nat :: Lowest(s, c, ns, T, low)
    ensures forall low: nat :: Lowest(s, c, ns, T, low) ==> s[c] - ErodeCell(s, c, ns, T)[c] == (s[c] - s[low] - T) / 2.0
  {
    hide Share, Total, Most, Ascending, ErodeCell;
    var h, most := s[c], Most(s, s[c], ns, T);
    MostOfAll(s, h, ns, T);
    ErodedAt(s, c, ns, T, c);
    var low :| low in ns && h - s[low] > T && h - s[low] == most;
    forall k | k in ns
      ensures s[k] >= s[low]
    {
      assert h - s[k] > T ==> h - s[k] <= most;
    }
    assert Lowest(s, c, ns, T, low);
  }

  lemma ErodeCellSlides(s: seq<real>, c: nat, ns: seq<nat>, T: real)
    requires Around(s, c, ns) && Total(s, s[c], ns, T) > 0.0 && Sum(ErodeCell(s, c, ns, T)) == Sum(s)
    ensures Slid(s, ErodeCell(s, c, ns, T), c, ns, T)
  {
    hide Share, Total, Most, Sum, Ascending, ErodeCell, Lowest;
    var h, r := s[c], ErodeCell(s, c, ns, T);
    ErodedLowest(s, c, ns, T);
    forall j, k | j in ns && k in ns && h - s[j] > T && h - s[k] > T
      ensures (r[j] - s[j]) * (h - s[k]) == (r[k] - s[k]) * (h - s[j])
    {
      ErodedRatio(s, c, ns, T, j, k);
    }
    forall k: nat | k < |s| && k != c && !(k in ns && h - s[k] > T)
      ensures r[k] == s[k]
    {
      ErodedAt(s, c, ns, T, k);
    }
  }

  /** What one of two results gives more to the lowest cell it gives more to
      every lower cell, and to the picture. */
  lemma SlidMore(s: seq<real>, r: seq<real>, r1: seq<real>, c: nat, ns: seq<nat>, T: real, low: nat)
    requires Around(s, c, ns) && T >= 0.0 && Slid(s, r, c, ns, T) && Slid(s, r1, c, ns, T) && Lowest(s, c, ns, T, low)
    ensures r[low] <= r1[low]
    ensures r[low] == r1[low] ==> r == r1
  {
    hide Sum, Slid, Ascending;
    SlidSum(s, r, r1, c, ns, T);
    var d := s[c] - s[low];
    forall k: nat | k < |s|
      ensures r1[low] <= r[low] ==> r1[k] <= r[k]
      ensures r1[low] == r[low] ==> r1[k] == r[k]
    {
      if !(k in ns && s[c] - s[k] > T) {
        SlidElsewhere(s, r, r1, c, ns, T, low, k);
      } else {
        SlidRatio(s, r, c, ns, T, k, low);
        SlidRatio(s, r1, c, ns, T, k, low);
        Proportional(r[k] - s[k], r1[k] - s[k], r[low] - s[low], r1[low] - s[low], s[c] - s[k], d);
      }
    }
    if r1[low] < r[low] { SumBelow(r1, r, low); }
  }

  lemma Proportional(a: real, a1: real, b: real, b1: real, e: real, d: real)
    requires d > 0.0 && e > 0.0 && a * d == b * e && a1 * d == b1 * e
    ensures b1 <= b ==> a1 <= a
    ensures b1 == b ==> a1 == a
  {
    assert (a - a1) * d == (b - b1) * e;
    SameSign(a - a1, d, b - b1, e);
  }

  lemma SameSign(x: real, d: real, y: real, e: real)
    requires d > 0.0 && e > 0.0 && x * d == y * e
    ensures (y >= 0.0 ==> x >= 0.0) && (y == 0.0 ==> x == 0.0)
  {
    assert y >= 0.0 ==> y * e >= 0.0;
    assert x < 0.0 ==> x * d < 0.0;
    assert x > 0.0 ==> x * d > 0.0;
  }

  lemma SlidRatio(s: seq<real>, r: seq<real>, c: nat, ns: seq<nat>, T: real, j: nat, k: nat)
    requires Slid(s, r, c, ns, T) && j in ns && k in ns && s[c] - s[j] > T && s[c] - s[k] > T
    ensures (r[j] - s[j]) * (s[c] - s[k]) == (r[k] - s[k]) * (s[c] - s[j])
  {
    hide Sum, Lowest;
  }

  lemma SlidElsewhere(s: seq<real>, r: seq<real>, r1: seq<real>, c: nat, ns: seq<nat>, T: real, low: nat, k: nat)
    requires Slid(s, r, c, ns, T) && Slid(s, r1, c, ns, T) && Lowest(s, c, ns, T, low)
    requires k < |s| && !(k in ns && s[c] - s[k] > T)
    ensures r[k] == r1[k]
  {
    hide Sum, Lowest;
  }

  lemma SlidSum(s: seq<real>, r: seq<real>, r1: seq<real>, c: nat, ns: seq<nat>, T: real)
    requires Slid(s, r, c, ns, T) && Slid(s, r1, c, ns, T)
    ensures |r| == |r1| == |s| && Sum(r) == Sum(r1)
  {}

  lemma {:induction false} SumBelow(a: seq<real>, b: seq<real>, k: nat)
    requires |a| == |b| && k < |a| && (forall i :: 0 <= i < |a| ==> a[i] <= b[i]) && a[k] < b[k]
    ensures Sum(a) < Sum(b)
  {
    var n := |a| - 1;
    if k < n {
      SumBelow(a[..n], b[..n], k);
    } else {
      SumAtMost(a[..n], b[..n]);
    }
  }

  lemma {:induction false} SumAtMost(a: seq<real>, b: seq<real>)
    requires |a| == |b| && forall i :: 0 <= i < |a| ==> a[i] <= b[i]
    ensures Sum(a) <= Sum(b)
  {
    if a != [] { SumAtMost(a[..|a| - 1], b[..|a| - 1]); }
  }

  /** For a threshold that is not negative that leaves one result only. */
  lemma SlidOnce(s: seq<real>, r: seq<real>, r1: seq<real>, c: nat, ns: seq<nat>, T: real)
    requires Around(s, c, ns) && T >= 0.0 && Slid(s, r, c, ns, T) && Slid(s, r1, c, ns, T)
    ensures r == r1
  {
    hide Slid;
    var low := SlidLowest(s, r, c, ns, T);
    SlidMore(s, r, r1, c, ns, T, low);
    SlidMore(s, r1, r, c, ns, T, low);
  }

  lemma SlidLowest(s: seq<real>, r: seq<real>, c: nat, ns: seq<nat>, T: real) returns (low: nat)
    requires Slid(s, r, c, ns, T)
    ensures c < |s| && Below(ns, |s|) && |r| == |s| && Lowest(s, c, ns, T, low)
  {
    low :| Lowest(s, c, ns, T, low);
  }

  // ----- the whole picture

  function ErodeAt(s: seq<real>, g: Size, x: nat, y: nat, T: real): (r: seq<real>)
    requires g.Fits() && |s| == g.Cells() && x < g.width && y < g.height
    ensures |r| == |s|
  {
    StencilAscending(g, x, y);
    ErodeCell(s, Index(g, x, y), Stencil(g, x, y), T)
  }

  /** The first x cells of row y. */
  function ErodeRow(s: seq<real>, g: Size, x: nat, y: nat, T: real): (r: seq<real>)
    requires g.Fits() && |s| == g.Cells() && x <= g.width && y < g.height
    ensures |r| == |s|
  {
    if x == 0 then s else ErodeAt(ErodeRow(s, g, x - 1, y, T), g, x - 1, y, T)
  }

  /** The first y rows. */
  function ErodeRows(s: seq<real>, g: Size, y: nat, T: real): (r: seq<real>)
    requires g.Fits() && |s| == g.Cells() && y <= g.height
    ensures |r| == |s|
  {
    if y == 0 then s else ErodeRow(ErodeRows(s, g, y - 1, T), g, g.width, y - 1, T)
  }

  function Erode(s: seq<real>, g: Size, steps: nat, T: real): (r: seq<real>)
    requires g.Fits() && |s| == g.Cells()
    ensures |r| == |s|
  {
    if steps == 0 then s else ErodeRows(Erode(s, g, steps - 1, T), g, g.height, T)
  }

  /** The first n cells, in the order of their indices. */
  function Swept(s: seq<real>, g: Size, n: nat, T: real): (r: seq<real>)
    requires g.Fits() && |s| == g.Cells() && n <= g.Cells()
    ensures |r| == |s|
  {
    if n == 0 then s
    else
      var cell := At(g, n - 1);
      ErodeAt(Swept(s, g, n - 1, T), g, cell.0, cell.1, T)
  }

  lemma {:induction false} SweptRow(s: seq<real>, g: Size, x: nat, y: nat, T: real)
    requires g.Fits() && |s| == g.Cells() && x <= g.width && y < g.height
    ensures Index(g, x, y) <= g.Cells() && Index(g, 0, y) <= g.Cells()
    ensures ErodeRow(Swept(s, g, Index(g, 0, y), T), g, x, y, T) == Swept(s, g, Index(g, x, y), T)
    decreases x
  {
    hide ErodeAt;
    RowFits(g, x, y);
    if x > 0 {
      SweptRow(s, g, x - 1, y, T);
      IndexInverse(g, x - 1, y);
    }
  }

  /** One step takes all cells in the order of their indices. */
  lemma {:induction false} SweptRows(s: seq<real>, g: Size, y: nat, T: real)
    requires g.Fits() && |s| == g.Cells() && y <= g.height
    ensures y * g.width <= g.Cells() && ErodeRows(s, g, y, T) == Swept(s, g, y * g.width, T)
    decreases y
  {
    hide ErodeRow, Swept;
    if y == 0 {
      SweptNone(s, g, T);
    } else {
      SweptRows(s, g, y - 1, T);
      RowFits(g, g.width, y - 1);
      SweptRow(s, g, g.width, y - 1, T);
    }
  }

  lemma SweptNone(s: seq<real>, g: Size, T: real)
    requires g.Fits() && |s| == g.Cells()
    ensures Swept(s, g, 0, T) == s
  {}

  ghost predicate Bounded(s: seq<real>, lo: real, hi: real) {
    forall k :: 0 <= k < |s| ==> lo <= s[k] <= hi
  }

  /** Material is conserved, and for a threshold that is not negative every
      bound on the heights is kept. */
  ghost predicate Safe(s: seq<real>, r: seq<real>, T: real) {
    && Sum(r) == Sum(s)
    && (T >= 0.0 ==> forall lo, hi :: Bounded(s, lo, hi) ==> Bounded(r, lo, hi))
  }

  lemma ErodeAtSafe(s: seq<real>, g: Size, x: nat, y: nat, T: real)
    requires g.Fits() && |s| == g.Cells() && x < g.width && y < g.height
    ensures Safe(s, ErodeAt(s, g, x, y, T), T)
  {
    hide ErodeCell, Stencil, Index, Sum;
    StencilAscending(g, x, y);
    var c, ns := Index(g, x, y), Stencil(g, x, y);
    ErodeCellConserves(s, c, ns, T);
    forall lo, hi, k: nat | T >= 0.0 && Bounded(s, lo, hi) && k < |s|
      ensures lo <= ErodeCell(s, c, ns, T)[k] <= hi
    {
      ErodeCellBounded(s, c, ns, T, lo, hi, k);
    }
  }

  lemma {:induction false} ErodeRowSafe(s: seq<real>, g: Size, x: nat, y: nat, T: real)
    requires g.Fits() && |s| == g.Cells() && x <= g.width && y < g.height
    ensures Safe(s, ErodeRow(s, g, x, y, T), T)
    decreases x
  {
    hide ErodeAt, Sum, Bounded;
    if x > 0 {
      ErodeRowSafe(s, g, x - 1, y, T);
      ErodeAtSafe(ErodeRow(s, g, x - 1, y, T), g, x - 1, y, T);
    }
  }

  lemma {:induction false} ErodeRowsSafe(s: seq<real>, g: Size, y: nat, T: real)
    requires g.Fits() && |s| == g.Cells() && y <= g.height
    ensures Safe(s, ErodeRows(s, g, y, T), T)
    decreases y
  {
    hide ErodeRow, Sum, Bounded;
    if y > 0 {
      ErodeRowsSafe(s, g, y - 1, T);
      ErodeRowSafe(ErodeRows(s, g, y - 1, T), g, g.width, y - 1, T);
    }
  }

  /** Any number of steps conserve the material and keep every bound. */
  lemma {:induction false} ErodeSafe(s: seq<real>, g: Size, steps: nat, T: real)
    requires g.Fits() && |s| == g.Cells()
    ensures Safe(s, Erode(s, g, steps, T), T)
    decreases steps
  {
    hide ErodeRows, Sum, Bounded;
    if steps > 0 {
      ErodeSafe(s, g, steps - 1, T);
      ErodeRowsSafe(Erode(s, g, steps - 1, T), g, g.height, T);
    }
  }

  lemma SmallStencil(g: Size, x: nat, y: nat)
    requires g.width == 2 && g.height == 2 && x < 2 && y < 2
    ensures Stencil(g, x, y) == if x == 1 && y == 1 then [0, 1, 2] else []
  {
    if x == 0 || y == 0 {
      BorderStencil(g, x, y);
    } else {
      assert Row(g, x, y, 0, 0, 1) == [0] && Row(g, x, y, 0, 0, 2) == [0, 1];
      assert Row(g, x, y, 1, 0, 1) == [2] && Row(g, x, y, 1, 0, 2) == [2];
      assert Rows(g, x, y, 0, 1, 0, 2) == [0, 1];
      assert Rows(g, x, y, 0, 2, 0, 2) == [0, 1, 2];
    }
  }

  /** With a negative threshold a picture of four cells leaves [0,1] in one
      step: the highest cell gives away more than it is above the others. */
  lemma NegativeThresholdOvershoots(T: real, d: real, s: seq<real>, g: Size, steps: nat)
    requires T < 0.0 && 0.0 < d <= 1.0 && 2.0 * d <= -T
    requires s == [0.0, 0.0, 0.0, d] && g.width == 2 && g.height == 2 && steps == 1
    ensures Bounded(s, 0.0, 1.0)
    ensures Erode(s, g, steps, T)[3] < 0.0
  {
    hide ErodeAt;
    FourCells(s, g, d, T);
    FirstCells(s, g, steps - 1, T);
    var y, x := g.height - 1, g.width - 1;
    TwoCells(s, g, x, y, T);
    assert ErodeRows(s, g, g.height, T) == ErodeRow(ErodeRows(s, g, y, T), g, g.width, y, T);
    assert Erode(s, g, steps - 1, T) == s;
  }

  lemma NoNeighbours(s: seq<real>, g: Size, x: nat, y: nat, T: real)
    requires g.width == 2 && g.height == 2 && |s| == 4 && x < 2 && y < 2 && !(x == 1 && y == 1)
    ensures ErodeAt(s, g, x, y, T) == s
  {
    hide Stencil;
    SmallStencil(g, x, y);
  }

  lemma TwoCells(s: seq<real>, g: Size, x: nat, y: nat, T: real)
    requires g.width == 2 && g.height == 2 && |s| == 4 && x == 1 && y < 2
    ensures ErodeRow(s, g, g.width, y, T) == ErodeAt(s, g, x, y, T)
  {
    hide ErodeAt;
    NoNeighbours(s, g, x - 1, y, T);
    assert ErodeRow(s, g, x - 1, y, T) == s;
    assert ErodeRow(s, g, x, y, T) == ErodeAt(s, g, x - 1, y, T);
  }

  lemma FirstCells(s: seq<real>, g: Size, y: nat, T: real)
    requires g.width == 2 && g.height == 2 && |s| == 4 && y == 0
    ensures ErodeRows(s, g, g.height - 1, T) == s
  {
    hide ErodeAt;
    TwoCells(s, g, g.width - 1, y, T);
    NoNeighbours(s, g, g.width - 1, y, T);
    assert ErodeRows(s, g, y, T) == s;
    assert ErodeRows(s, g, g.height - 1, T) == ErodeRow(ErodeRows(s, g, y, T), g, g.width, y, T);
  }

  lemma FourCells(s: seq<real>, g: Size, d: real, T: real)
    requires T < 0.0 && 0.0 < d <= 1.0 && 2.0 * d <= -T
    requires s == [0.0, 0.0, 0.0, d] && g.width == 2 && g.height == 2
    ensures ErodeAt(s, g, g.width - 1, g.height - 1, T)[3] < 0.0
  {
    hide Give, Stencil;
    SmallStencil(g, g.width - 1, g.height - 1);
    var n0: seq<nat>, n1: seq<nat>, n2: seq<nat>, n3: seq<nat> := [], [0], [0, 1], [0, 1, 2];
    assert n1[..0] == n0 && n2[..1] == n1 && n3[..2] == n2;
    assert Total(s, d, n0, T) == 0.0 && Most(s, d, n0, T) == 0.0;
    assert Total(s, d, n1, T) == d && Most(s, d, n1, T) == d;
    assert Total(s, d, n2, T) == 2.0 * d && Most(s, d, n2, T) == d;
    assert Total(s, d, n3, T) == 3.0 * d && Most(s, d, n3, T) == d;
  }

  /** Without a threshold a peak gives half of itself to the cells around it. */
  lemma PeakSlides(g: Size)
    requires g == Size(2, 2)
    ensures ErodeAt([0.0, 0.0, 0.0, 1.0], g, 1, 1, 0.0) == [1.0 / 6.0, 1.0 / 6.0, 1.0 / 6.0, 0.5]
  {
    hide Stencil, ErodeCell, Total, Most;
    var s, ns: seq<nat> := [0.0, 0.0, 0.0, 1.0], [0, 1, 2];
    SmallStencil(g, 1, 1);
    assert Stencil(g, 1, 1) == ns;
    PeakTotal();
    ErodedAt(s, 3, ns, 0.0, 0);
    ErodedAt(s, 3, ns, 0.0, 1);
    ErodedAt(s, 3, ns, 0.0, 2);
    ErodedAt(s, 3, ns, 0.0, 3);
  }

  lemma PeakTotal()
    ensures Total([0.0, 0.0, 0.0, 1.0], 1.0, [0, 1, 2], 0.0) == 3.0 && Most([0.0, 0.0, 0.0, 1.0], 1.0, [0, 1, 2], 0.0) == 1.0
  {
    var s, n0: seq<nat>, n1: seq<nat>, n2: seq<nat>, n3: seq<nat> := [0.0, 0.0, 0.0, 1.0], [], [0], [0, 1], [0, 1, 2];
    assert n1[..0] == n0 && n2[..1] == n1 && n3[..2] == n2;
    assert Total(s, 1.0, n0, 0.0) == 0.0 && Most(s, 1.0, n0, 0.0) == 0.0;
    assert Total(s, 1.0, n1, 0.0) == 1.0 && Most(s, 1.0, n1, 0.0) == 1.0;
    assert Total(s, 1.0, n2, 0.0) == 2.0 && Most(s, 1.0, n2, 0.0) == 1.0;
  }

  /** Pictures in [0,1] stay there exactly for thresholds that are not negative. */
  lemma ThresholdExactly(T: real)
    ensures T >= 0.0 <==>
            forall s, g: Size, steps :: g.Fits() && |s| == g.Cells() && Bounded(s, 0.0, 1.0) ==>
              Bounded(Erode(s, g, steps, T), 0.0, 1.0)
  {
    if T >= 0.0 {
      forall s, g: Size, steps | g.Fits() && |s| == g.Cells() && Bounded(s, 0.0, 1.0)
        ensures Bounded(Erode(s, g, steps, T), 0.0, 1.0)
      {
        ErodeSafe(s, g, steps, T);
      }
    } else {
      var d := if T > -2.0 then -0.5 * T else 1.0;
      var s, g := [0.0, 0.0, 0.0, d], Size(2, 2);
      NegativeThresholdOvershoots(T, d, s, g, 1);
      assert !Bounded(Erode(s, g, 1, T), 0.0, 1.0);
    }
  }

  // ----- in place

  lemma TotalNext(s: seq<real>, h: real, ns: seq<nat>, k: nat, T: real)
    requires Below(ns, |s|) && k < |s|
    ensures Below(ns + [k], |s|)
    ensures Total(s, h, ns + [k], T) == Total(s, h, ns, T) + if h - s[k] > T then h - s[k] else 0.0
    ensures Most(s, h, ns + [k], T) ==
            if h - s[k] > T && h - s[k] > Most(s, h, ns, T) then h - s[k] else Most(s, h, ns, T)
  {
    assert (ns + [k])[..|ns|] == ns;
  }

  lemma GiveNext(s: seq<real>, h: real, ns: seq<nat>, k: nat, T: real, moved: real, total: real)
    requires Below(ns, |s|) && k < |s| && total != 0.0
    ensures Below(ns + [k], |s|)
    ensures Give(s, h, ns + [k], T, moved, total) ==
            var s1 := Give(s, h, ns, T, moved, total);
            if h - s1[k] > T then s1[k := s1[k] + Share(moved, h - s1[k], total)] else s1
  {
    hide Share;
    assert (ns + [k])[..|ns|] == ns;
  }

  /** The first pass over the cells around (x, y): the differences. */
  method Slopes(hMap: array<real>, g: Size, x: nat, y: nat, T: real) returns (dTotal: real, dMax: real)
    requires g.Fits() && hMap.Length == g.Cells() && x < g.width && y < g.height
    ensures Index(g, x, y) < hMap.Length && Below(Stencil(g, x, y), hMap.Length)
    ensures dTotal == Total(hMap[..], hMap[Index(g, x, y)], Stencil(g, x, y), T)
    ensures dMax == Most(hMap[..], hMap[Index(g, x, y)], Stencil(g, x, y), T)
  {
    hide Index, Row, Rows, Stencil, Total, Most, High, Low, Visited, Below;
    StencilAscending(g, x, y);
    dTotal, dMax := 0.0, 0.0;
    ghost var s, h := hMap[..], hMap[Index(g, x, y)];
    var i := Low(y);
    NothingVisited(s, g, x, y, h, T);
    while i < High(y, g.height)
      invariant Low(y) <= i && (i <= High(y, g.height) || i == Low(y))
      invariant Below(Rows(g, x, y, Low(y), i, Low(x), High(x, g.width)), |s|)
      invariant dTotal == Total(s, h, Rows(g, x, y, Low(y), i, Low(x), High(x, g.width)), T)
      invariant dMax == Most(s, h, Rows(g, x, y, Low(y), i, Low(x), High(x, g.width)), T)
    {
      HighBound(y, g.height);
      var j := Low(x);
      VisitedBegins(g, x, y, i);
      while j < High(x, g.width)
        invariant Low(x) <= j && (j <= High(x, g.width) || j == Low(x))
        invariant Below(Visited(g, x, y, i, j), |s|)
        invariant dTotal == Total(s, h, Visited(g, x, y, i, j), T)
        invariant dMax == Most(s, h, Visited(g, x, y, i, j), T)
      {
        HighBound(x, g.width);
        VisitedNext(g, x, y, i, j);
        if !(j == x && i == y) {
          TotalNext(s, h, Visited(g, x, y, i, j), Index(g, j, i), T);
          var di := hMap[Index(g, x, y)] - hMap[Index(g, j, i)];
          if di > T {
            dTotal := dTotal + di;
            if di > dMax {
              dMax := di;
            }
          }
        } else {
          assert Visited(g, x, y, i, j + 1) == Visited(g, x, y, i, j);
        }
        j := j + 1;
      }
      VisitedRow(g, x, y, i, j);
      i := i + 1;
    }
    VisitedAll(g, x, y, i);
  }

  lemma NothingVisited(s: seq<real>, g: Size, x: nat, y: nat, h: real, T: real)
    requires g.Fits() && x < g.width && y < g.height
    ensures var none := Rows(g, x, y, Low(y), Low(y), Low(x), High(x, g.width));
            none == [] && Below(none, |s|) && Total(s, h, none, T) == 0.0 && Most(s, h, none, T) == 0.0
  {}

  /** The second pass: every lower cell receives its share. */
  method Spread(hMap: array<real>, g: Size, x: nat, y: nat, T: real, h: real, dTotal: real, dMax: real)
    requires g.Fits() && hMap.Length == g.Cells() && x < g.width && y < g.height
    requires dTotal != 0.0
    modifies hMap
    ensures Below(Stencil(g, x, y), hMap.Length)
    ensures hMap[..] == Give(old(hMap[..]), h, Stencil(g, x, y), T, 0.5 * (dMax - T), dTotal)
  {
    hide Index, Row, Rows, Stencil, Give, Share, High, Low, Visited, Below;
    StencilAscending(g, x, y);
    ghost var s, moved := hMap[..], 0.5 * (dMax - T);
    var i := Low(y);
    NothingVisited(s, g, x, y, h, T);
    NothingGiven(s, h, T, moved, dTotal);
    while i < High(y, g.height)
      invariant Low(y) <= i && (i <= High(y, g.height) || i == Low(y))
      invariant Below(Rows(g, x, y, Low(y), i, Low(x), High(x, g.width)), |s|)
      invariant hMap[..] == Give(s, h, Rows(g, x, y, Low(y), i, Low(x), High(x, g.width)), T, moved, dTotal)
    {
      HighBound(y, g.height);
      var j := Low(x);
      VisitedBegins(g, x, y, i);
      while j < High(x, g.width)
        invariant Low(x) <= j && (j <= High(x, g.width) || j == Low(x))
        invariant Below(Visited(g, x, y, i, j), |s|)
        invariant hMap[..] == Give(s, h, Visited(g, x, y, i, j), T, moved, dTotal)
      {
        HighBound(x, g.width);
        VisitedNext(g, x, y, i, j);
        if !(j == x && i == y) {
          GiveNext(s, h, Visited(g, x, y, i, j), Index(g, j, i), T, moved, dTotal);
          var k := Index(g, j, i);
          var di := h - hMap[k];
          if di > T {
            hMap[k] := hMap[k] + Share(0.5 * (dMax - T), di, dTotal);
          }
        } else {
          assert Visited(g, x, y, i, j + 1) == Visited(g, x, y, i, j);
        }
        j := j + 1;
      }
      VisitedRow(g, x, y, i, j);
      i := i + 1;
    }
    VisitedAll(g, x, y, i);
  }

  lemma NothingGiven(s: seq<real>, h: real, T: real, moved: real, total: real)
    requires total != 0.0
    ensures Give(s, h, [], T, moved, total) == s
  {}

  /** The cell slides if and only if one of the cells around it is more than the
      threshold lower; otherwise the picture stays as it is. */
  ghost predicate Settles(s: seq<real>, r: seq<real>, g: Size, x: nat, y: nat, T: real)
    requires g.Fits() && |s| == g.Cells() && x < g.width && y < g.height
  {
    && Index(g, x, y) < |s|
    && if Inner(x, y) && exists k :: 0 <= k < |s| && Neighbour(g, x, y, k) && s[Index(g, x, y)] - s[k] > T
       then Slid(s, r, Index(g, x, y), Stencil(g, x, y), T) && r != s
       else r == s
  }

  lemma SlidChanges(s: seq<real>, r: seq<real>, c: nat, ns: seq<nat>, T: real)
    requires Slid(s, r, c, ns, T)
    ensures r != s
  {
    hide Sum;
    var low: nat :| Lowest(s, c, ns, T, low);
    assert s[c] - r[c] == (s[c] - s[low] - T) / 2.0;
  }

  lemma ErodeAtSettles(s: seq<real>, g: Size, x: nat, y: nat, T: real)
    requires g.Fits() && |s| == g.Cells() && x < g.width && y < g.height && T >= 0.0
    ensures Settles(s, ErodeAt(s, g, x, y, T), g, x, y, T)
  {
    hide Slid, Stencil, Neighbour, ErodeCell, Total, Index;
    StencilAscending(g, x, y);
    var c, ns := Index(g, x, y), Stencil(g, x, y);
    ErodeCellExactly(s, c, ns, T);
    forall k: nat
      ensures k in ns <==> Inner(x, y) && Neighbour(g, x, y, k)
    {
      StencilExactly(g, x, y, k);
    }
    if Slid(s, ErodeCell(s, c, ns, T), c, ns, T) { SlidChanges(s, ErodeCell(s, c, ns, T), c, ns, T); }
  }

  method ErodeThermalCell(hMap: array<real>, g: Size, x: nat, y: nat, T: real)
    requires g.Fits() && hMap.Length == g.Cells() && x < g.width && y < g.height
    modifies hMap
    ensures hMap[..] == ErodeAt(old(hMap[..]), g, x, y, T)
    ensures T >= 0.0 ==> Settles(old(hMap[..]), hMap[..], g, x, y, T)
  {
    hide Index, Stencil, Give, Total, Most, Below, Settles;
    StencilAscending(g, x, y);
    if T >= 0.0 { ErodeAtSettles(hMap[..], g, x, y, T); }
    var dTotal, dMax := Slopes(hMap, g, x, y, T);
    if !(dTotal > 0.0) {
      return;
    }
    var h := hMap[Index(g, x, y)];
    Spread(hMap, g, x, y, T, h, dTotal, dMax);
    hMap[Index(g, x, y)] := h - 0.5 * (dMax - T);
  }

  /** Erodes a copy of the picture and writes it back, until a value fails the
      assertion and the program ends; T is the tangent of the talus angle times
      the cell size. */
  method ErodeThermal(hMap: array<real>, g: Size, T: real, steps: nat) returns (aborted: bool)
    requires g.Fits() && hMap.Length == g.Cells()
    modifies hMap
    ensures aborted <==> steps > 0 && !Bounded(Erode(old(hMap[..]), g, steps, T), 0.0, 1.0)
    ensures T >= 0.0 && Bounded(old(hMap[..]), 0.0, 1.0) ==> !aborted
    ensures !aborted ==> hMap[..] == Erode(old(hMap[..]), g, steps, T)
    ensures !aborted ==> Sum(hMap[..]) == Sum(old(hMap[..]))
  {
    hide ErodeAt, Sum;
    ghost var s := hMap[..];
    ErodeSafe(s, g, steps, T);
    if steps == 0 {
      return false;
    }
    var heightMap := new real[hMap.Length](k requires 0 <= k < hMap.Length reads hMap => hMap[k]);
    assert heightMap[..] == s;
    for k: nat := 0 to steps
      invariant heightMap[..] == Erode(s, g, k, T)
      invariant hMap[..] == s
    {
      ErodeStep(heightMap, g, T);
    }
    for k: nat := 0 to hMap.Length
      invariant heightMap[..] == Erode(s, g, steps, T)
      invariant forall i :: 0 <= i < k ==> hMap[i] == heightMap[i] && 0.0 <= heightMap[i] <= 1.0
    {
      var value := heightMap[k];
      assert value == heightMap[..][k];
      if !(value <= 1.0 && value >= 0.0) {
        return true;
      }
      hMap[k] := value;
    }
    assert hMap[..] == heightMap[..];
    aborted := false;
  }

  method ErodeStep(heightMap: array<real>, g: Size, T: real)
    requires g.Fits() && heightMap.Length == g.Cells()
    modifies heightMap
    ensures heightMap[..] == ErodeRows(old(heightMap[..]), g, g.height, T)
  {
    hide ErodeAt;
    ghost var s := heightMap[..];
    for y: nat := 0 to g.height
      invariant heightMap[..] == ErodeRows(s, g, y, T)
    {
      for x: nat := 0 to g.width
        invariant heightMap[..] == ErodeRow(ErodeRows(s, g, y, T), g, x, y, T)
      {
        ErodeThermalCell(heightMap, g, x, y, T);
      }
    }
  }
}
