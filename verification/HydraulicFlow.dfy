/** The flow of src/modules/erosion/erosion.c:157-217 seen from outside: how
    much water leaves a cell, where it goes, and what it takes along. */
module HydraulicFlow {
  import opened Grids
  import opened Sharing
  import opened HydraulicErosion

  /** The levels of the cells of ks. */
  function Picked(l: seq<real>, ks: seq<nat>): (r: seq<real>)
    requires Below(ks, |l|)
    ensures |r| == |ks|
  {
    seq(|ks|, i requires 0 <= i < |ks| => l[ks[i]])
  }

  /** The sequence lists the cells of ns that are lower than a, once each. */
  ghost predicate Lists(lower: seq<nat>, l: seq<real>, a: real, ns: seq<nat>) {
    && Below(ns, |l|) && Below(lower, |l|)
    && (forall i, j :: 0 <= i < j < |lower| ==> lower[i] < lower[j])
    && (forall k :: k in lower <==> k in ns && l[k] < a)
  }

  /** The source of n lower cells whose levels sum up to `sum` has lost all its
      water, or as much as its level was above their mean level if that is less,
      and with its water the same part of its sediment. */
  ghost predicate Lost(s: Maps, r: Maps, c: nat, n: real, sum: real)
    requires Sized(s, |s.hs|) && Sized(r, |s.hs|) && c < |s.hs|
  {
    var a, w, moved := s.hs[c] + s.ws[c], s.ws[c], s.ws[c] - r.ws[c];
    && moved <= w && moved * n <= a * n - sum && (moved == w || moved * n == a * n - sum)
    && (s.ms[c] - r.ms[c]) * w == s.ms[c] * moved
  }

  /** A lower cell has gained water in proportion to how much lower it was, and
      the sediment in this water. */
  ghost predicate Gained(s: Maps, r: Maps, c: nat, n: real, sum: real, k: nat)
    requires Sized(s, |s.hs|) && Sized(r, |s.hs|) && c < |s.hs| && k < |s.hs|
  {
    var a := s.hs[c] + s.ws[c];
    && (r.ws[k] - s.ws[k]) * (a * n - sum) == (s.ws[c] - r.ws[c]) * (a - (s.hs[k] + s.ws[k]))
    && (r.ms[k] - s.ms[k]) * s.ws[c] == s.ms[c] * (r.ws[k] - s.ws[k])
  }

  /** Cell c has given water and sediment to the lower cells, if there are any,
      and nothing else has changed. */
  ghost predicate Flowed(s: Maps, r: Maps, c: nat, lower: seq<nat>)
    requires Sized(s, |s.hs|) && Sized(r, |s.hs|) && c < |s.hs| && Below(lower, |s.hs|)
  {
    if lower == [] then r == s
    else
      var n, sum := |lower| as real, Sum(Picked(Levels(s), lower));
      && r.hs == s.hs && Lost(s, r, c, n, sum)
      && (forall k :: k in lower ==> Gained(s, r, c, n, sum, k))
      && forall k :: 0 <= k < |s.hs| && k != c && k !in lower ==> r.ws[k] == s.ws[k] && r.ms[k] == s.ms[k]
  }

  lemma {:induction false} LowerListed(l: seq<real>, a: real, ns: seq<nat>, c: nat) returns (lower: seq<nat>)
    requires Around(l, c, ns)
    ensures Lists(lower, l, a, ns)
    ensures |lower| == Count(l, a, ns) && Sum(Picked(l, lower)) == LevelSum(l, a, ns)
    decreases |ns|
  {
    if ns == [] {
      lower := [];
    } else {
      var n := |ns| - 1;
      AroundPrefix(l, c, ns);
      lower := LowerListed(l, a, ns[..n], c);
      if l[ns[n]] < a {
        LastListed(lower, l, a, ns);
        lower := lower + [ns[n]];
      }
    }
  }

  lemma LastListed(lower: seq<nat>, l: seq<real>, a: real, ns: seq<nat>)
    requires Below(ns, |l|) && ns != [] && Lists(lower, l, a, ns[..|ns| - 1]) && l[ns[|ns| - 1]] < a
    requires forall i, j :: 0 <= i < j < |ns| ==> ns[i] < ns[j]
    ensures Lists(lower + [ns[|ns| - 1]], l, a, ns)
    ensures Sum(Picked(l, lower + [ns[|ns| - 1]])) == Sum(Picked(l, lower)) + l[ns[|ns| - 1]]
  {
    var n := |ns| - 1;
    var more := lower + [ns[n]];
    assert ns == ns[..n] + [ns[n]];
    assert Picked(l, more)[..|lower|] == Picked(l, lower);
    forall i | 0 <= i < |lower|
      ensures lower[i] < ns[n]
    {
      assert lower[i] in lower;
      assert lower[i] in ns[..n];
    }
    forall k
      ensures k in more <==> k in ns && l[k] < a
    {
      assert k in more <==> k in lower || k == ns[n];
      assert k in ns <==> k in ns[..n] || k == ns[n];
    }
  }

  lemma ShareTimes(moved: real, d: real, total: real)
    requires total != 0.0
    ensures Share(moved, d, total) * total == moved * d
  {}

  lemma MeanTimes(sum: real, n: real, a: real)
    requires n > 0.0
    ensures (a - sum / n) * n == a * n - sum
  {}

  lemma SmallerTimes(x: real, y: real, n: real)
    requires x <= y && n > 0.0
    ensures x * n <= y * n
  {}

  /** What the cells have after the flow, when there is a lower one. */
  lemma FlowedAt(s: Maps, c: nat, ns: seq<nat>, k: nat)
    requires Sane(s, |s.hs|) && Around(s.hs, c, ns) && s.ws[c] > 0.0 && k < |s.hs|
    requires Count(Levels(s), s.hs[c] + s.ws[c], ns) >= 1
    ensures var r, a, w, m := FlowCell(s, c, ns), s.hs[c] + s.ws[c], s.ws[c], s.ms[c];
            var total, d := Total(Levels(s), a, ns, 0.0), a - (s.hs[k] + s.ws[k]);
            var moved := Min(w, a - LevelSum(Levels(s), a, ns) / Count(Levels(s), a, ns) as real);
            && total > 0.0
            && (k == c ==> r.ws[k] == w - moved && r.ms[k] == m - Share(m, moved, w))
            && (k != c && k in ns && d > 0.0 ==> r.ws[k] == s.ws[k] + Share(moved, d, total)
                                                 && r.ms[k] == s.ms[k] + Share(m, Share(moved, d, total), w))
            && (k != c && !(k in ns && d > 0.0) ==> r.ws[k] == s.ws[k] && r.ms[k] == s.ms[k])
  {
    hide Share, Sum, Count, LevelSum, Total, Pour, Ascending, Below;
    var l, a, w, m := Levels(s), s.hs[c] + s.ws[c], s.ws[c], s.ms[c];
    var total := Total(l, a, ns, 0.0);
    CountTotal(l, a, ns);
    var moved := Min(w, a - LevelSum(l, a, ns) / Count(l, a, ns) as real);
    PourAt(s, c, ns, a, moved, total, m, w, k);
    ShareAdds(moved, 0.0, 0.0, total);
  }

  /** Flow does what Flowed says, with the list of the lower cells around. */
  lemma FlowCellExactly(s: Maps, c: nat, ns: seq<nat>)
    requires Sane(s, |s.hs|) && Around(s.hs, c, ns) && s.ws[c] > 0.0
    ensures exists lower: seq<nat> :: Lists(lower, Levels(s), s.hs[c] + s.ws[c], ns) && Flowed(s, FlowCell(s, c, ns), c, lower)
  {
    hide Share, Sum, LevelSum, Count, Total, FlowCell, Ascending, Picked;
    var lower := LowerListed(Levels(s), s.hs[c] + s.ws[c], ns, c);
    if lower == [] {
      NoFlow(s, c, ns);
    } else {
      LowerFlowed(s, c, ns, lower);
    }
    assert Lists(lower, Levels(s), s.hs[c] + s.ws[c], ns) && Flowed(s, FlowCell(s, c, ns), c, lower);
  }

  lemma NoFlow(s: Maps, c: nat, ns: seq<nat>)
    requires Sized(s, |s.hs|) && Around(s.hs, c, ns) && s.ws[c] > 0.0
    requires Count(Levels(s), s.hs[c] + s.ws[c], ns) == 0
    ensures FlowCell(s, c, ns) == s
  {}

  lemma LowerFlowed(s: Maps, c: nat, ns: seq<nat>, lower: seq<nat>)
    requires Sane(s, |s.hs|) && Around(s.hs, c, ns) && s.ws[c] > 0.0 && lower != []
    requires var l, a := Levels(s), s.hs[c] + s.ws[c];
             Lists(lower, l, a, ns) && |lower| == Count(l, a, ns) && Sum(Picked(l, lower)) == LevelSum(l, a, ns)
    ensures Flowed(s, FlowCell(s, c, ns), c, lower)
  {
    hide Sum, LevelSum, Count, Total, FlowCell, Ascending, Picked, Lost, Gained;
    LowerSource(s, c, ns);
    var r, n, sum := FlowCell(s, c, ns), |lower| as real, Sum(Picked(Levels(s), lower));
    forall k | k in lower
      ensures Gained(s, r, c, n, sum, k)
    {
      AroundNotSelf(s.hs, c, ns);
      LowerTarget(s, c, ns, k);
    }
    forall k: nat | k < |s.hs| && k != c && k !in lower
      ensures r.ws[k] == s.ws[k] && r.ms[k] == s.ms[k]
    {
      LowerElsewhere(s, c, ns, lower, k);
    }
  }

  lemma LowerElsewhere(s: Maps, c: nat, ns: seq<nat>, lower: seq<nat>, k: nat)
    requires Sane(s, |s.hs|) && Around(s.hs, c, ns) && s.ws[c] > 0.0 && Count(Levels(s), s.hs[c] + s.ws[c], ns) >= 1
    requires Lists(lower, Levels(s), s.hs[c] + s.ws[c], ns) && k < |s.hs| && k != c && k !in lower
    ensures FlowCell(s, c, ns).ws[k] == s.ws[k] && FlowCell(s, c, ns).ms[k] == s.ms[k]
  {
    hide Share, Sum, LevelSum, Count, Total, FlowCell, Ascending, Min;
    FlowedAt(s, c, ns, k);
  }

  lemma LowerSource(s: Maps, c: nat, ns: seq<nat>)
    requires Sane(s, |s.hs|) && Around(s.hs, c, ns) && s.ws[c] > 0.0
    requires Count(Levels(s), s.hs[c] + s.ws[c], ns) >= 1
    ensures var l, a := Levels(s), s.hs[c] + s.ws[c];
            Lost(s, FlowCell(s, c, ns), c, Count(l, a, ns) as real, LevelSum(l, a, ns))
  {
    hide Share, Sum, LevelSum, Count, Total, FlowCell, Ascending;
    var l, a, w := Levels(s), s.hs[c] + s.ws[c], s.ws[c];
    var n, sum := Count(l, a, ns) as real, LevelSum(l, a, ns);
    FlowedAt(s, c, ns, c);
    MeanTimes(sum, n, a);
    SmallerTimes(Min(w, a - sum / n), a - sum / n, n);
    ShareTimes(s.ms[c], Min(w, a - sum / n), w);
  }

  lemma LowerTarget(s: Maps, c: nat, ns: seq<nat>, k: nat)
    requires Sane(s, |s.hs|) && Around(s.hs, c, ns) && s.ws[c] > 0.0 && k in ns && k < |s.hs| && k != c
    requires s.hs[k] + s.ws[k] < s.hs[c] + s.ws[c] && Count(Levels(s), s.hs[c] + s.ws[c], ns) >= 1
    ensures var l, a := Levels(s), s.hs[c] + s.ws[c];
            Gained(s, FlowCell(s, c, ns), c, Count(l, a, ns) as real, LevelSum(l, a, ns), k)
  {
    hide Share, Sum, LevelSum, Count, Total, FlowCell, Ascending, Min;
    var r, a, w := FlowCell(s, c, ns), s.hs[c] + s.ws[c], s.ws[c];
    FlowedAt(s, c, ns, k);
    FlowedAt(s, c, ns, c);
    CountTotal(Levels(s), a, ns);
    ShareTimes(w - r.ws[c], a - (s.hs[k] + s.ws[k]), Total(Levels(s), a, ns, 0.0));
    ShareTimes(s.ms[c], r.ws[k] - s.ws[k], w);
  }

  // ----- the whole picture

  /** The sequence lists the neighbours of (x, y) that are lower, once each;
      where a loop bound wraps around there are none. */
  ghost predicate ListsLower(lower: seq<nat>, s: Maps, g: Size, x: nat, y: nat)
    requires Sized(s, g.Cells()) && Index(g, x, y) < g.Cells()
  {
    var c := Index(g, x, y);
    && Below(lower, g.Cells())
    && (forall i, j :: 0 <= i < j < |lower| ==> lower[i] < lower[j])
    && forall k: nat :: k in lower <==>
                        k < g.Cells() && Inner(x, y) && Neighbour(g, x, y, k) && s.hs[k] + s.ws[k] < s.hs[c] + s.ws[c]
  }

  /** Flow from a cell does what Flowed says, with its lower neighbours. */
  lemma FlowAtExactly(s: Maps, g: Size, x: nat, y: nat)
    requires Flowing(s, g, x, y) && x < g.width && y < g.height
    ensures Index(g, x, y) < g.Cells()
    ensures exists lower: seq<nat> :: ListsLower(lower, s, g, x, y) && Flowed(s, FlowAt(s, g, x, y), Index(g, x, y), lower)
  {
    hide FlowCell, Stencil, Neighbour, Flowed, Index;
    StencilAscending(g, x, y);
    FlowAtSafe(s, g, x, y);
    var c, ns := Index(g, x, y), Stencil(g, x, y);
    FlowCellExactly(s, c, ns);
    var lower: seq<nat> :| Lists(lower, Levels(s), s.hs[c] + s.ws[c], ns) && Flowed(s, FlowCell(s, c, ns), c, lower);
    forall k: nat
      ensures k in ns <==> Inner(x, y) && Neighbour(g, x, y, k)
    {
      StencilExactly(g, x, y, k);
    }
    assert ListsLower(lower, s, g, x, y);
  }

  /** The first n cells, in the order of their indices. */
  ghost function Swept(s: Maps, g: Size, n: nat): (r: Maps)
    requires Flowing(s, g, 0, 0) && n <= g.Cells()
    ensures g.Fits() && Sane(r, g.Cells()) && Wet(r, n) && r.hs == s.hs
  {
    if n == 0 then s
    else
      var cell := At(g, n - 1);
      FlowAt(Swept(s, g, n - 1), g, cell.0, cell.1)
  }

  lemma {:induction false} SweptRow(s: Maps, g: Size, x: nat, y: nat)
    requires Flowing(s, g, 0, 0) && x <= g.width && y < g.height
    ensures Index(g, x, y) <= g.Cells() && Index(g, 0, y) <= g.Cells()
    ensures FlowRow(Swept(s, g, Index(g, 0, y)), g, x, y) == Swept(s, g, Index(g, x, y))
    decreases x
  {
    hide FlowAt;
    RowFits(g, x, y);
    if x > 0 {
      SweptRow(s, g, x - 1, y);
      IndexInverse(g, x - 1, y);
    }
  }

  /** One step lets the water flow from all cells in the order of their indices. */
  lemma {:induction false} SweptRows(s: Maps, g: Size, y: nat)
    requires Flowing(s, g, 0, 0) && y <= g.height
    ensures y * g.width <= g.Cells() && FlowRows(s, g, y) == Swept(s, g, y * g.width)
    decreases y
  {
    hide FlowRow, Swept;
    if y == 0 {
      SweptNone(s, g);
    } else {
      SweptRows(s, g, y - 1);
      RowFits(g, g.width, y - 1);
      NextRow(g, y - 1);
      SweptRow(s, g, g.width, y - 1);
    }
  }

  lemma SweptNone(s: Maps, g: Size)
    requires Flowing(s, g, 0, 0)
    ensures Swept(s, g, 0) == s
  {}
}
