/** When the assertion at the end of erodeHydraulic holds,
    src/modules/erosion/erosion.c:311-316: after any number of steps the values
    that go back into the picture should lie between 0 and 1. */
module HydraulicSurvival {
  import opened Grids
  import opened Sharing
  import opened HydraulicErosion

  predicate Displayable(hs: seq<real>) {
    forall k :: 0 <= k < |hs| ==> 0.0 <= hs[k] <= 1.0
  }

  /** Every picture of this size is displayable after up to n steps. */
  ghost predicate Survives(g: Size, n: nat)
    requires g.Fits()
  {
    forall hs, k: nat :: k <= n && |hs| == g.Cells() && Displayable(hs) ==> Displayable(Eroded(hs, g, k))
  }

  // ----- one column or one row

  lemma BorderFlow(s: Maps, g: Size, x: nat, y: nat)
    requires Flowing(s, g, x, y) && x < g.width && y < g.height && (x == 0 || y == 0)
    ensures FlowAt(s, g, x, y) == s
  {
    hide Stencil, Index, FlowCell;
    FlowAtSafe(s, g, x, y);
    BorderStencil(g, x, y);
    NoNeighbours(s, Index(g, x, y));
  }

  lemma NoNeighbours(s: Maps, c: nat)
    requires |s.hs| == |s.ws| == |s.ms| && c < |s.hs| && s.ws[c] > 0.0
    ensures FlowCell(s, c, []) == s
  {}

  lemma {:induction false} FlatRow(s: Maps, g: Size, x: nat, y: nat)
    requires Flowing(s, g, 0, y) && x <= g.width && y < g.height && (g.width <= 1 || y == 0)
    ensures FlowRow(s, g, x, y) == s
    decreases x
  {
    hide FlowAt, Flowing;
    if x > 0 {
      FlatRow(s, g, x - 1, y);
      BorderFlow(s, g, x - 1, y);
    }
  }

  lemma {:induction false} FlatRows(s: Maps, g: Size, y: nat)
    requires Flowing(s, g, 0, 0) && y <= g.height && (g.width <= 1 || g.height <= 1)
    ensures FlowRows(s, g, y) == s
    decreases y
  {
    hide FlowRow, Flowing;
    if y > 0 {
      FlatRows(s, g, y - 1);
      NextRow(g, y - 1);
      FlatRowAgain(s, g, y);
    }
  }

  lemma FlatRowAgain(s: Maps, g: Size, y: nat)
    requires Flowing(s, g, 0, 0) && 0 < y <= g.height && (g.width <= 1 || g.height <= 1) && FlowRows(s, g, y - 1) == s
    ensures FlowRows(s, g, y) == s
  {
    hide FlowRow, Flowing;
    NextRow(g, y - 1);
    FlatRow(s, g, g.width, y - 1);
  }

  lemma RainThenDissolve(s: Maps, g: Size)
    requires g.Fits() && Sane(s, g.Cells())
    ensures Flowing(Dissolved(Rained(s)), g, 0, 0)
    ensures Stepped(s, g) == Evaporated(FlowRows(Dissolved(Rained(s)), g, g.height))
  {
    hide FlowRows, Rained, Dissolved, Evaporated;
    RainedSafe(s, g.Cells());
    DissolvedSafe(Rained(s), g.Cells());
  }

  lemma {:induction false} FlatSettles(hs: seq<real>, g: Size, n: nat)
    requires g.Fits() && |hs| == g.Cells() && (g.width <= 1 || g.height <= 1)
    ensures Eroded(hs, g, n) == hs
  {
    hide Stepped;
    DrySane(hs);
    if n > 0 {
      FlatSettles(hs, g, n - 1);
      var s := Run(Dry(hs), g, n - 1);
      FlatStep(s, g);
    }
  }

  lemma FlatStep(s: Maps, g: Size)
    requires g.Fits() && Sane(s, g.Cells()) && (g.width <= 1 || g.height <= 1)
    ensures Settled(Stepped(s, g)) == Settled(s)
  {
    hide FlowRows, Stepped;
    RainThenDissolve(s, g);
    FlatRows(Dissolved(Rained(s)), g, g.height);
  }

  // ----- the first step

  /** All water carries as much sediment as it dissolves, and all levels lie
      between lo and hi. */
  ghost predicate Even(s: Maps, lo: real, hi: real) {
    && |s.hs| == |s.ws| == |s.ms|
    && (forall k :: 0 <= k < |s.ws| ==> s.ms[k] == K_SOLUBILITY * s.ws[k])
    && (forall k :: 0 <= k < |s.ws| ==> lo <= s.hs[k] + s.ws[k] <= hi)
  }

  lemma {:induction false} LevelSumAbove(l: seq<real>, a: real, ns: seq<nat>, lo: real)
    requires Below(ns, |l|) && forall k :: 0 <= k < |l| ==> lo <= l[k]
    ensures LevelSum(l, a, ns) >= lo * Count(l, a, ns) as real
    decreases |ns|
  {
    if ns != [] {
      LevelSumAbove(l, a, ns[..|ns| - 1], lo);
    }
  }

  lemma MeanAbove(sum: real, n: real, lo: real)
    requires n > 0.0 && sum >= lo * n
    ensures sum / n >= lo
  {}

  lemma ShareOfEven(w: real, part: real)
    requires w != 0.0
    ensures Share(K_SOLUBILITY * w, part, w) == K_SOLUBILITY * part
  {
    assert K_SOLUBILITY * w * part == (K_SOLUBILITY * part) * w;
  }

  lemma MeanAtMostTotal(total: real, n: real)
    requires n >= 1.0 && total >= 0.0
    ensures total / n <= total
  {
    assert total * n >= total;
  }

  lemma FlowCellEven(s: Maps, c: nat, ns: seq<nat>, lo: real, hi: real)
    requires Sane(s, |s.hs|) && Around(s.hs, c, ns) && s.ws[c] > 0.0 && Even(s, lo, hi)
    ensures Even(FlowCell(s, c, ns), lo, hi)
  {
    hide Share, Sum, Count, LevelSum, Total, Pour, Ascending, Below;
    var l, a, w, m := Levels(s), s.hs[c] + s.ws[c], s.ws[c], s.ms[c];
    var count, total := Count(l, a, ns), Total(l, a, ns, 0.0);
    CountTotal(l, a, ns);
    if count >= 1 {
      MeanDifference(l, a, ns);
      LevelSumAbove(l, a, ns, lo);
      MeanAbove(LevelSum(l, a, ns), count as real, lo);
      MeanAtMostTotal(total, count as real);
      var moved := Min(w, a - LevelSum(l, a, ns) / count as real);
      AroundNotSelf(s.hs, c, ns);
      forall k: nat | k < |s.hs|
        ensures var r := FlowCell(s, c, ns);
                r.ms[k] == K_SOLUBILITY * r.ws[k] && lo <= r.hs[k] + r.ws[k] <= hi
      {
        PourAt(s, c, ns, a, moved, total, m, w, k);
        var d := a - (s.hs[k] + s.ws[k]);
        if k == c {
          ShareAdds(moved, 0.0, 0.0, total);
          ShareOfEven(w, moved);
        } else if k in ns && d > 0.0 {
          ShareBounds(moved, d, total);
          ShareOfEven(w, Share(moved, d, total));
        }
      }
    }
  }

  lemma {:induction false} FlowRowEven(s: Maps, g: Size, x: nat, y: nat, lo: real, hi: real)
    requires Flowing(s, g, 0, y) && x <= g.width && y < g.height && Even(s, lo, hi)
    ensures Even(FlowRow(s, g, x, y), lo, hi)
    decreases x
  {
    hide FlowCell, Even, Flowing, Index;
    if x > 0 {
      FlowRowEven(s, g, x - 1, y, lo, hi);
      FlowAtEven(FlowRow(s, g, x - 1, y), g, x - 1, y, lo, hi);
    }
  }

  lemma FlowAtEven(s: Maps, g: Size, x: nat, y: nat, lo: real, hi: real)
    requires Flowing(s, g, x, y) && x < g.width && y < g.height && Even(s, lo, hi)
    ensures Even(FlowAt(s, g, x, y), lo, hi)
  {
    hide FlowCell, Stencil, Even, Index;
    StencilAscending(g, x, y);
    FlowAtSafe(s, g, x, y);
    FlowCellEven(s, Index(g, x, y), Stencil(g, x, y), lo, hi);
  }

  lemma {:induction false} FlowRowsEven(s: Maps, g: Size, y: nat, lo: real, hi: real)
    requires Flowing(s, g, 0, 0) && y <= g.height && Even(s, lo, hi)
    ensures Even(FlowRows(s, g, y), lo, hi)
    decreases y
  {
    hide FlowRow, Even, Flowing, Index;
    if y > 0 {
      FlowRowsEven(s, g, y - 1, lo, hi);
      NextRow(g, y - 1);
      LastRowEven(s, g, y, lo, hi);
    }
  }

  lemma LastRowEven(s: Maps, g: Size, y: nat, lo: real, hi: real)
    requires Flowing(s, g, 0, 0) && 0 < y <= g.height && Even(FlowRows(s, g, y - 1), lo, hi)
    ensures Even(FlowRows(s, g, y), lo, hi)
  {
    hide FlowRow, Even, Flowing, Index;
    NextRow(g, y - 1);
    FlowRowEven(FlowRows(s, g, y - 1), g, g.width, y - 1, lo, hi);
  }

  /** One step keeps every picture displayable. */
  lemma OneStep(hs: seq<real>, g: Size)
    requires g.Fits() && |hs| == g.Cells() && Displayable(hs)
    ensures Sane(Dry(hs), g.Cells()) && Displayable(Settled(Stepped(Dry(hs), g)))
  {
    DrySane(hs);
    hide FlowRows, Stepped;
    var s := Dissolved(Rained(Dry(hs)));
    RainThenDissolve(Dry(hs), g);
    assert Even(s, 0.0099, 1.0099);
    FlowRowsEven(s, g, g.height, 0.0099, 1.0099);
    var r := FlowRows(s, g, g.height);
    assert r.hs == s.hs;
    forall k | 0 <= k < |hs|
      ensures 0.0 <= r.hs[k] + r.ms[k] <= 1.0
    {
      assert r.hs[k] == hs[k] - 0.0001;
    }
  }

  // ----- a margin for any number of steps

  /** More than all the water of one step can dissolve. */
  function Margin(g: Size, steps: nat): real {
    0.0002 * (g.Cells() * steps) as real
  }

  ghost predicate Within(hs: seq<real>, m: real) {
    forall k :: 0 <= k < |hs| ==> m <= hs[k] <= 1.0 - m
  }

  /** No cell has lost more than b, and none would have gained more than b with
      all the sediment there is. */
  ghost predicate Gauged(s: Maps, hs: seq<real>, b: real) {
    && Sane(s, |hs|) && Sum(s.ws) <= K_RAIN * |hs| as real
    && forall k :: 0 <= k < |hs| ==> hs[k] - b <= s.hs[k] && s.hs[k] + Sum(s.ms) <= hs[k] + b
  }

  /** Where no entry grew, the sum fell by at least what one entry did. */
  lemma {:induction false} SumFalls(a: seq<real>, b: seq<real>, k: nat)
    requires |a| == |b| && k < |a| && forall i :: 0 <= i < |a| ==> b[i] <= a[i]
    ensures Sum(a) - Sum(b) >= a[k] - b[k]
  {
    var n := |a| - 1;
    if k < n {
      SumFalls(a[..n], b[..n], k);
    } else {
      SumOrdered(a[..n], b[..n]);
    }
  }

  lemma {:induction false} SumOrdered(a: seq<real>, b: seq<real>)
    requires |a| == |b| && forall i :: 0 <= i < |a| ==> b[i] <= a[i]
    ensures Sum(b) <= Sum(a)
  {
    if a != [] {
      var n := |a| - 1;
      SumOrdered(a[..n], b[..n]);
    }
  }

  lemma {:induction false} SumLinear(a: seq<real>, b: seq<real>, c: seq<real>, f: real, d: real)
    requires |a| == |b| == |c| && forall i :: 0 <= i < |a| ==> c[i] == a[i] + f * b[i] + d
    ensures Sum(c) == Sum(a) + f * Sum(b) + d * |a| as real
  {
    if a != [] {
      var n := |a| - 1;
      SumLinear(a[..n], b[..n], c[..n], f, d);
    }
  }

  lemma RainAdds(s: Maps)
    requires Sized(s, |s.hs|)
    ensures Sum(Rained(s).ws) == Sum(s.ws) + K_RAIN * |s.hs| as real
  {
    SumLinear(s.ws, s.ws, Rained(s).ws, 0.0, K_RAIN);
  }

  lemma AtMostSum(a: seq<real>, k: nat)
    requires k < |a| && forall i :: 0 <= i < |a| ==> a[i] >= 0.0
    ensures a[k] <= Sum(a)
  {
    var zero := seq(|a|, i => 0.0);
    ZeroSum(|a|);
    SumFalls(a, zero, k);
  }

  lemma DissolveGauged(s: Maps, hs: seq<real>, b: real, d: real)
    requires Sane(s, |hs|) && Sum(s.ws) <= d && d >= 0.0
    requires forall k :: 0 <= k < |hs| ==> hs[k] - b <= s.hs[k] && s.hs[k] + Sum(s.ms) <= hs[k] + b
    ensures var r := Dissolved(s);
            forall k :: 0 <= k < |hs| ==>
              hs[k] - (b + K_SOLUBILITY * d) <= r.hs[k] && r.hs[k] + Sum(r.ms) <= hs[k] + (b + K_SOLUBILITY * d)
  {
    hide Sum;
    var r := Dissolved(s);
    SumLinear(s.ms, s.ws, r.ms, K_SOLUBILITY, 0.0);
    forall k | 0 <= k < |hs|
      ensures hs[k] - (b + K_SOLUBILITY * d) <= r.hs[k] && r.hs[k] + Sum(r.ms) <= hs[k] + (b + K_SOLUBILITY * d)
    {
      AtMostSum(s.ws, k);
    }
  }

  lemma EvaporateGauged(s: Maps, hs: seq<real>, b: real)
    requires Sane(s, |hs|) && Sum(s.ws) <= 2.0 * (K_RAIN * |hs| as real)
    requires forall k :: 0 <= k < |hs| ==> hs[k] - b <= s.hs[k] && s.hs[k] + Sum(s.ms) <= hs[k] + b
    ensures Gauged(Evaporated(s), hs, b)
  {
    hide Sum;
    var r := Evaporated(s);
    EvaporatedSafe(s, |hs|);
    SumLinear(seq(|s.ws|, i => 0.0), s.ws, r.ws, 1.0 - K_EVAPORATION, 0.0);
    ZeroSum(|s.ws|);
    forall k | 0 <= k < |hs|
      ensures hs[k] - b <= r.hs[k] && r.hs[k] + Sum(r.ms) <= hs[k] + b
    {
      SumFalls(s.ms, r.ms, k);
    }
  }

  lemma StepGauged(s: Maps, hs: seq<real>, g: Size, b: real)
    requires g.Fits() && |hs| == g.Cells() && Gauged(s, hs, b)
    ensures Sane(s, g.Cells()) && Gauged(Stepped(s, g), hs, b + 0.0002 * |hs| as real)
  {
    hide Sum, FlowRows, Evaporated, Dissolved, Rained, Stepped;
    var n := |hs|;
    var rained := Rained(s);
    RainThenDissolve(s, g);
    RainedSafe(s, n);
    RainAdds(s);
    DissolvedSafe(rained, n);
    DissolveGauged(rained, hs, b, 2.0 * (K_RAIN * n as real));
    var dissolved := Dissolved(rained);
    FlowRowsSafe(dissolved, g, g.height);
    EvaporateGauged(FlowRows(dissolved, g, g.height), hs, b + K_SOLUBILITY * (2.0 * (K_RAIN * n as real)));
  }

  lemma {:induction false} RunGauged(hs: seq<real>, g: Size, n: nat)
    requires g.Fits() && |hs| == g.Cells()
    ensures Sane(Dry(hs), |hs|) && Gauged(Run(Dry(hs), g, n), hs, Margin(g, n))
  {
    hide Stepped;
    DrySane(hs);
    if n == 0 {
      ZeroSum(|hs|);
    } else {
      RunGauged(hs, g, n - 1);
      StepGauged(Run(Dry(hs), g, n - 1), hs, g, Margin(g, n - 1));
      MarginGrows(g, n);
    }
  }

  lemma MarginGrows(g: Size, n: nat)
    requires n > 0
    ensures Margin(g, n) == Margin(g, n - 1) + 0.0002 * g.Cells() as real
  {
    assert g.Cells() * n == g.Cells() * (n - 1) + g.Cells();
  }

  /** No height changes by more than the margin, so a picture that keeps this
      distance from 0 and 1 stays displayable. */
  lemma MarginSuffices(hs: seq<real>, g: Size, n: nat)
    requires g.Fits() && |hs| == g.Cells()
    ensures forall k :: 0 <= k < |hs| ==> hs[k] - Margin(g, n) <= Eroded(hs, g, n)[k] <= hs[k] + Margin(g, n)
    ensures Within(hs, Margin(g, n)) ==> Displayable(Eroded(hs, g, n))
  {
    hide Run, Sum;
    RunGauged(hs, g, n);
    var s := Run(Dry(hs), g, n);
    forall k | 0 <= k < |hs|
      ensures hs[k] - Margin(g, n) <= Eroded(hs, g, n)[k] <= hs[k] + Margin(g, n)
    {
      AtMostSum(s.ms, k);
    }
  }

  // ----- when the assertion holds

  lemma OneStepSurvives(g: Size, n: nat)
    requires g.Fits() && n <= 1
    ensures Survives(g, n)
  {
    hide Stepped;
    forall hs, k: nat | k <= n && |hs| == g.Cells() && Displayable(hs)
      ensures Displayable(Eroded(hs, g, k))
    {
      DrySane(hs);
      if k == 1 {
        OneStep(hs, g);
        assert Run(Dry(hs), g, k - 1) == Dry(hs);
      }
    }
  }

  lemma FlatSurvives(g: Size, n: nat)
    requires g.Fits() && (g.width <= 1 || g.height <= 1)
    ensures Survives(g, n)
  {
    hide Eroded;
    forall hs, k: nat | k <= n && |hs| == g.Cells() && Displayable(hs)
      ensures Displayable(Eroded(hs, g, k))
    {
      FlatSettles(hs, g, k);
    }
  }

  lemma SurvivingPicture(hs: seq<real>, g: Size, n: nat)
    requires g.Fits() && |hs| == g.Cells()
    ensures Displayable(hs) && (n <= 1 || g.width <= 1 || g.height <= 1) ==> Displayable(Eroded(hs, g, n))
  {
    hide Eroded;
    if n <= 1 {
      OneStepSurvives(g, n);
    } else if g.width <= 1 || g.height <= 1 {
      FlatSurvives(g, n);
    }
  }

  /** Erodes a copy of the picture and writes it back, until a value fails the
      assertion and the program ends. */
  method ErodeHydraulic(hMap: array<real>, size: Size, steps: nat) returns (aborted: bool)
    requires size.Fits() && hMap.Length == size.Cells()
    modifies hMap
    ensures aborted <==> steps > 0 && !Displayable(Eroded(old(hMap[..]), size, steps))
    ensures steps == 0 ==> hMap[..] == old(hMap[..])
    ensures steps > 0 && !aborted ==> hMap[..] == Eroded(old(hMap[..]), size, steps)
    ensures !aborted ==> Sum(hMap[..]) == Sum(old(hMap[..]))
    ensures Displayable(old(hMap[..])) && (steps <= 1 || size.width <= 1 || size.height <= 1) ==> !aborted
    ensures Within(old(hMap[..]), Margin(size, steps)) ==> !aborted
  {
    hide Stepped, Sum, Survives;
    ghost var hs := hMap[..];
    DrySane(hs);
    HydraulicConserves(hs, size, steps);
    MarginSuffices(hs, size, steps);
    SurvivingPicture(hs, size, steps);
    if steps == 0 {
      return false;
    }
    var land := new Landscape(hMap, size);
    for k: nat := 0 to steps
      invariant hMap[..] == hs && land.Valid()
      invariant land.State() == Run(Dry(hs), size, k)
    {
      land.Step();
    }
    ghost var s := land.State();
    for k: nat := 0 to hMap.Length
      invariant land.Valid() && land.State() == s
      invariant forall i :: 0 <= i < k ==> hMap[i] == Settled(s)[i] && 0.0 <= Settled(s)[i] <= 1.0
    {
      assert land.heights[..][k] == s.hs[k] && land.sediment[..][k] == s.ms[k];
      var value := land.heights[k] + land.sediment[k];
      assert value == Settled(s)[k];
      if !(value <= 1.0 && value >= 0.0) {
        return true;
      }
      hMap[k] := value;
    }
    assert hMap[..] == Settled(s);
    aborted := false;
  }
}
