/** Hydraulic erosion, src/modules/erosion/erosion.c: rain dissolves material,
    water carries it downhill, and evaporation deposits it. */
module HydraulicErosion {
  import opened Grids
  import opened Sharing

  const K_RAIN := 0.01
  const K_SOLUBILITY := 0.01
  const K_EVAPORATION := 0.5
  const K_CAPACITY := 0.3

  /** The heights, the water and the sediment of all cells. */
  datatype Maps = Maps(hs: seq<real>, ws: seq<real>, ms: seq<real>)

  ghost predicate Sized(s: Maps, n: nat) {
    |s.hs| == n && |s.ws| == n && |s.ms| == n
  }

  /** Neither water nor sediment is negative. */
  ghost predicate Sane(s: Maps, n: nat) {
    Sized(s, n) && forall k :: 0 <= k < n ==> s.ws[k] >= 0.0 && s.ms[k] >= 0.0
  }

  /** From this cell on there is at least the rain of the current step. */
  ghost predicate Wet(s: Maps, first: nat) {
    forall k :: first <= k < |s.ws| ==> s.ws[k] >= K_RAIN
  }

  function Material(s: Maps): real {
    Sum(s.hs) + Sum(s.ms)
  }

  /** Ground and water together. */
  function Levels(s: Maps): (r: seq<real>)
    requires |s.hs| == |s.ws|
    ensures |r| == |s.hs| && forall k :: 0 <= k < |r| ==> r[k] == s.hs[k] + s.ws[k]
  {
    seq(|s.hs|, k requires 0 <= k < |s.hs| => s.hs[k] + s.ws[k])
  }

  /** How many of the cells are lower than a, and the sum of their levels. */
  function Count(l: seq<real>, a: real, ns: seq<nat>): nat
    requires Below(ns, |l|)
  {
    if ns == [] then 0
    else Count(l, a, ns[..|ns| - 1]) + if a - l[ns[|ns| - 1]] > 0.0 then 1 else 0
  }

  function LevelSum(l: seq<real>, a: real, ns: seq<nat>): real
    requires Below(ns, |l|)
  {
    if ns == [] then 0.0
    else LevelSum(l, a, ns[..|ns| - 1]) + if a - l[ns[|ns| - 1]] > 0.0 then l[ns[|ns| - 1]] else 0.0
  }

  /** Water flows from cell c to cell k if that is lower than a, and takes its
      share of the sediment m of c along; w is the water c had. */
  function PourOne(r: Maps, c: nat, k: nat, a: real, moved: real, total: real, m: real, w: real): (r1: Maps)
    requires |r.hs| == |r.ws| == |r.ms| && c < |r.hs| && k < |r.hs| && total != 0.0 && w != 0.0
    ensures r1.hs == r.hs && |r1.ws| == |r.ws| && |r1.ms| == |r.ms|
  {
    var d := a - (r.hs[k] + r.ws[k]);
    if d > 0.0 then
      var water := Share(moved, d, total);
      var sediment := Share(m, water, w);
      var ms := r.ms[k := r.ms[k] + sediment];
      Maps(r.hs, r.ws[k := r.ws[k] + water], ms[c := ms[c] - sediment])
    else r
  }

  /** The same for the cells of ns, in turn. */
  function Pour(s: Maps, c: nat, ns: seq<nat>, a: real, moved: real, total: real, m: real, w: real): (r: Maps)
    requires |s.hs| == |s.ws| == |s.ms| && c < |s.hs| && Below(ns, |s.hs|) && total != 0.0 && w != 0.0
    ensures r.hs == s.hs && |r.ws| == |s.ws| && |r.ms| == |s.ms|
  {
    if ns == [] then s
    else PourOne(Pour(s, c, ns[..|ns| - 1], a, moved, total, m, w), c, ns[|ns| - 1], a, moved, total, m, w)
  }

  function Min(a: real, b: real): real {
    if a < b then a else b
  }

  function FlowCell(s: Maps, c: nat, ns: seq<nat>): (r: Maps)
    requires |s.hs| == |s.ws| == |s.ms| && c < |s.hs| && Below(ns, |s.hs|) && s.ws[c] > 0.0
    ensures r.hs == s.hs && |r.ws| == |s.ws| && |r.ms| == |s.ms|
  {
    var l, a, w := Levels(s), s.hs[c] + s.ws[c], s.ws[c];
    var count, total := Count(l, a, ns), Total(l, a, ns, 0.0);
    CountTotal(l, a, ns);
    if count < 1 then s
    else
      var moved := Min(w, a - LevelSum(l, a, ns) / count as real);
      var r := Pour(s, c, ns, a, moved, total, s.ms[c], w);
      r.(ws := r.ws[c := w - moved])
  }

  lemma {:induction false} CountTotal(l: seq<real>, a: real, ns: seq<nat>)
    requires Below(ns, |l|)
    ensures Total(l, a, ns, 0.0) >= 0.0
    ensures Count(l, a, ns) >= 1 <==> Total(l, a, ns, 0.0) > 0.0
    ensures Total(l, a, ns, 0.0) == a * (Count(l, a, ns) as real) - LevelSum(l, a, ns)
    decreases |ns|
  {
    if ns != [] {
      CountTotal(l, a, ns[..|ns| - 1]);
    }
  }

  /** The moved water is the mean difference, or all there is. */
  lemma MeanDifference(l: seq<real>, a: real, ns: seq<nat>)
    requires Below(ns, |l|) && Count(l, a, ns) >= 1
    ensures a - LevelSum(l, a, ns) / Count(l, a, ns) as real == Total(l, a, ns, 0.0) / Count(l, a, ns) as real
    ensures Total(l, a, ns, 0.0) / Count(l, a, ns) as real > 0.0
  {
    CountTotal(l, a, ns);
    Divides(a, Count(l, a, ns) as real, LevelSum(l, a, ns));
  }

  lemma Divides(a: real, n: real, sum: real)
    requires n > 0.0
    ensures a - sum / n == (a * n - sum) / n
    ensures a * n - sum > 0.0 ==> (a * n - sum) / n > 0.0
  {}

  /** What each cell has after pouring. */
  lemma {:induction false} PourAt(s: Maps, c: nat, ns: seq<nat>, a: real, moved: real, total: real, m: real, w: real, k: nat)
    requires Sized(s, |s.hs|) && Around(s.hs, c, ns) && total != 0.0 && w != 0.0 && k < |s.hs|
    ensures var r, d, l := Pour(s, c, ns, a, moved, total, m, w), a - (s.hs[k] + s.ws[k]), Levels(s);
            && r.ws[k] == (if k in ns && d > 0.0 then s.ws[k] + Share(moved, d, total) else s.ws[k])
            && r.ms[k] == if k == c then s.ms[c] - Share(m, Share(moved, Total(l, a, ns, 0.0), total), w)
                          else if k in ns && d > 0.0 then s.ms[k] + Share(m, Share(moved, d, total), w)
                          else s.ms[k]
    decreases |ns|
  {
    hide Share;
    ShareAdds(moved, 0.0, 0.0, total);
    ShareAdds(m, 0.0, 0.0, w);
    if ns != [] {
      var n, l := |ns| - 1, Levels(s);
      AroundPrefix(s.hs, c, ns);
      assert ns[n] != c;
      PourAt(s, c, ns[..n], a, moved, total, m, w, k);
      PourAt(s, c, ns[..n], a, moved, total, m, w, ns[n]);
      hide Around, Below, Ascending;
      var d := a - l[ns[n]];
      ShareAdds(moved, Total(l, a, ns[..n], 0.0), d, total);
      ShareAdds(m, Share(moved, Total(l, a, ns[..n], 0.0), total), Share(moved, d, total), w);
    }
  }

  lemma {:induction false} PourSum(s: Maps, c: nat, ns: seq<nat>, a: real, moved: real, total: real, m: real, w: real)
    requires Sized(s, |s.hs|) && Around(s.hs, c, ns) && total != 0.0 && w != 0.0
    ensures var r := Pour(s, c, ns, a, moved, total, m, w);
            && Sum(r.ws) == Sum(s.ws) + Share(moved, Total(Levels(s), a, ns, 0.0), total)
            && Sum(r.ms) == Sum(s.ms)
    decreases |ns|
  {
    hide Share, Sum;
    ShareAdds(moved, 0.0, 0.0, total);
    if ns != [] {
      var n, l, k := |ns| - 1, Levels(s), ns[|ns| - 1];
      AroundPrefix(s.hs, c, ns);
      PourSum(s, c, ns[..n], a, moved, total, m, w);
      PourAt(s, c, ns[..n], a, moved, total, m, w, k);
      var r, d := Pour(s, c, ns[..n], a, moved, total, m, w), a - l[k];
      if d > 0.0 {
        var water := Share(moved, d, total);
        var sediment := Share(m, water, w);
        ShareAdds(moved, Total(l, a, ns[..n], 0.0), d, total);
        SumUpdate(r.ws, k, r.ws[k] + water);
        SumUpdate(r.ms, k, r.ms[k] + sediment);
        SumUpdate(r.ms[k := r.ms[k] + sediment], c, r.ms[k := r.ms[k] + sediment][c] - sediment);
      }
    }
  }

  lemma ShareSigns(amount: real, part: real, whole: real)
    requires amount >= 0.0 && part >= 0.0 && whole > 0.0
    ensures Share(amount, part, whole) >= 0.0
    ensures part <= whole ==> Share(amount, part, whole) <= amount
  {
    assert amount * part >= 0.0;
    if part <= whole {
      assert amount * part <= amount * whole;
      assert amount * part / whole <= amount * whole / whole;
      assert amount * whole / whole == amount;
    }
  }

  /** Flow conserves water and sediment, keeps both from going negative, and
      only cell c can lose water. */
  lemma FlowCellSafe(s: Maps, c: nat, ns: seq<nat>)
    requires Sane(s, |s.hs|) && Around(s.hs, c, ns) && s.ws[c] > 0.0
    ensures var r := FlowCell(s, c, ns);
            && Sane(r, |s.hs|) && Sum(r.ws) == Sum(s.ws) && Sum(r.ms) == Sum(s.ms)
            && forall k :: 0 <= k < |s.hs| && k != c ==> r.ws[k] >= s.ws[k]
  {
    hide Share, Sum, Count, LevelSum, Total, Pour, Ascending;
    var l, a, w, m := Levels(s), s.hs[c] + s.ws[c], s.ws[c], s.ms[c];
    var count, total := Count(l, a, ns), Total(l, a, ns, 0.0);
    CountTotal(l, a, ns);
    if count >= 1 {
      MeanDifference(l, a, ns);
      var moved := Min(w, a - LevelSum(l, a, ns) / count as real);
      var r := Pour(s, c, ns, a, moved, total, m, w);
      ShareAdds(moved, 0.0, 0.0, total);
      ShareSigns(m, moved, w);
      PourSum(s, c, ns, a, moved, total, m, w);
      PourAt(s, c, ns, a, moved, total, m, w, c);
      SumUpdate(r.ws, c, w - moved);
      AroundNotSelf(s.hs, c, ns);
      forall k: nat | k < |s.hs| && k != c
        ensures r.ws[k] >= s.ws[k] && r.ms[k] >= 0.0
      {
        PourAt(s, c, ns, a, moved, total, m, w, k);
        var d := a - (s.hs[k] + s.ws[k]);
        if d > 0.0 {
          ShareSigns(moved, d, total);
          ShareSigns(m, Share(moved, d, total), w);
        }
      }
    }
  }

  // ----- the phases of one step

  function Rained(s: Maps): (r: Maps)
    ensures r.hs == s.hs && |r.ws| == |s.ws| && r.ms == s.ms
  {
    s.(ws := seq(|s.ws|, k requires 0 <= k < |s.ws| => s.ws[k] + K_RAIN))
  }

  function Dissolved(s: Maps): (r: Maps)
    requires |s.hs| == |s.ws| == |s.ms|
    ensures |r.hs| == |s.hs| && r.ws == s.ws && |r.ms| == |s.ms|
  {
    Maps(seq(|s.hs|, k requires 0 <= k < |s.hs| => s.hs[k] - K_SOLUBILITY * s.ws[k]), s.ws,
         seq(|s.ms|, k requires 0 <= k < |s.ms| => s.ms[k] + K_SOLUBILITY * s.ws[k]))
  }

  /** How much of the sediment m is too much for the water left of w. */
  function Deposit(m: real, w: real): real {
    var excess := m - K_CAPACITY * (w * (1.0 - K_EVAPORATION));
    if 0.0 > excess then 0.0 else excess
  }

  function Evaporated(s: Maps): (r: Maps)
    requires |s.hs| == |s.ws| == |s.ms|
    ensures |r.hs| == |s.hs| && |r.ws| == |s.ws| && |r.ms| == |s.ms|
  {
    Maps(seq(|s.hs|, k requires 0 <= k < |s.hs| => s.hs[k] + Deposit(s.ms[k], s.ws[k])),
         seq(|s.ws|, k requires 0 <= k < |s.ws| => s.ws[k] * (1.0 - K_EVAPORATION)),
         seq(|s.ms|, k requires 0 <= k < |s.ms| => s.ms[k] - Deposit(s.ms[k], s.ws[k])))
  }

  lemma RainedSafe(s: Maps, n: nat)
    requires Sane(s, n)
    ensures Sane(Rained(s), n) && Material(Rained(s)) == Material(s) && Wet(Rained(s), 0)
  {}

  lemma DissolvedSafe(s: Maps, n: nat)
    requires Sane(s, n)
    ensures Sane(Dissolved(s), n) && Material(Dissolved(s)) == Material(s)
    ensures Wet(s, 0) ==> Wet(Dissolved(s), 0)
  {
    hide Sum;
    var r := Dissolved(s);
    SumPointwise(s.hs, s.ms, r.hs, r.ms);
  }

  lemma EvaporatedSafe(s: Maps, n: nat)
    requires Sane(s, n)
    ensures Sane(Evaporated(s), n) && Material(Evaporated(s)) == Material(s)
  {
    hide Sum;
    var r := Evaporated(s);
    SumPointwise(s.hs, s.ms, r.hs, r.ms);
  }

  // ----- the flow over the whole grid

  /** A state in which the cells from (x, y) on still have the rain. */
  ghost predicate Flowing(s: Maps, g: Size, x: nat, y: nat) {
    g.Fits() && Sane(s, g.Cells()) && Wet(s, Index(g, x, y))
  }

  function FlowAt(s: Maps, g: Size, x: nat, y: nat): (r: Maps)
    requires Flowing(s, g, x, y) && x < g.width && y < g.height
    ensures Flowing(r, g, x + 1, y) && r.hs == s.hs
  {
    StencilAscending(g, x, y);
    FlowAtSafe(s, g, x, y);
    FlowCell(s, Index(g, x, y), Stencil(g, x, y))
  }

  lemma FlowAtSafe(s: Maps, g: Size, x: nat, y: nat)
    requires Flowing(s, g, x, y) && x < g.width && y < g.height
    ensures Index(g, x, y) < g.Cells() && s.ws[Index(g, x, y)] >= K_RAIN
    ensures Below(Stencil(g, x, y), g.Cells())
    ensures var r := FlowCell(s, Index(g, x, y), Stencil(g, x, y));
            Flowing(r, g, x + 1, y) && Material(r) == Material(s) && Sum(r.ws) == Sum(s.ws)
  {
    hide FlowCell, Stencil, Sum;
    StencilAscending(g, x, y);
    FlowCellSafe(s, Index(g, x, y), Stencil(g, x, y));
    assert Index(g, x + 1, y) == Index(g, x, y) + 1;
  }

  /** The first x cells of row y. */
  function FlowRow(s: Maps, g: Size, x: nat, y: nat): (r: Maps)
    requires Flowing(s, g, 0, y) && x <= g.width && y < g.height
    ensures Flowing(r, g, x, y) && r.hs == s.hs
    decreases x
  {
    if x == 0 then s else FlowAt(FlowRow(s, g, x - 1, y), g, x - 1, y)
  }

  lemma NextRow(g: Size, y: nat)
    ensures Index(g, g.width, y) == Index(g, 0, y + 1)
  {}

  /** The first y rows. */
  function FlowRows(s: Maps, g: Size, y: nat): (r: Maps)
    requires Flowing(s, g, 0, 0) && y <= g.height
    ensures Flowing(r, g, 0, y) && r.hs == s.hs
    decreases y
  {
    if y == 0 then s
    else
      NextRow(g, y - 1);
      FlowRow(FlowRows(s, g, y - 1), g, g.width, y - 1)
  }

  lemma {:induction false} FlowRowSafe(s: Maps, g: Size, x: nat, y: nat)
    requires Flowing(s, g, 0, y) && x <= g.width && y < g.height
    ensures Material(FlowRow(s, g, x, y)) == Material(s) && Sum(FlowRow(s, g, x, y).ws) == Sum(s.ws)
    decreases x
  {
    hide FlowCell, Sum, Material, Flowing, Index;
    if x > 0 {
      FlowRowSafe(s, g, x - 1, y);
      FlowAtSafe(FlowRow(s, g, x - 1, y), g, x - 1, y);
    }
  }

  lemma {:induction false} FlowRowsSafe(s: Maps, g: Size, y: nat)
    requires Flowing(s, g, 0, 0) && y <= g.height
    ensures Material(FlowRows(s, g, y)) == Material(s) && Sum(FlowRows(s, g, y).ws) == Sum(s.ws)
    decreases y
  {
    hide FlowRow, Sum, Material, Flowing, Index;
    if y > 0 {
      FlowRowsSafe(s, g, y - 1);
      NextRow(g, y - 1);
      FlowRowOfRows(s, g, y);
    }
  }

  lemma FlowRowOfRows(s: Maps, g: Size, y: nat)
    requires Flowing(s, g, 0, 0) && 0 < y <= g.height
    requires Material(FlowRows(s, g, y - 1)) == Material(s) && Sum(FlowRows(s, g, y - 1).ws) == Sum(s.ws)
    ensures Material(FlowRows(s, g, y)) == Material(s) && Sum(FlowRows(s, g, y).ws) == Sum(s.ws)
  {
    hide FlowRow, Sum, Material;
    FlowRowSafe(FlowRows(s, g, y - 1), g, g.width, y - 1);
  }

  // ----- any number of steps

  function Stepped(s: Maps, g: Size): (r: Maps)
    requires g.Fits() && Sane(s, g.Cells())
    ensures Sane(r, g.Cells())
  {
    RainedSafe(s, g.Cells());
    DissolvedSafe(Rained(s), g.Cells());
    var flowed := FlowRows(Dissolved(Rained(s)), g, g.height);
    EvaporatedSafe(flowed, g.Cells());
    Evaporated(flowed)
  }

  lemma SteppedConserves(s: Maps, g: Size)
    requires g.Fits() && Sane(s, g.Cells())
    ensures Material(Stepped(s, g)) == Material(s)
  {
    hide Material, FlowRows;
    RainedSafe(s, g.Cells());
    DissolvedSafe(Rained(s), g.Cells());
    FlowRowsSafe(Dissolved(Rained(s)), g, g.height);
    EvaporatedSafe(FlowRows(Dissolved(Rained(s)), g, g.height), g.Cells());
  }

  function Run(s: Maps, g: Size, steps: nat): (r: Maps)
    requires g.Fits() && Sane(s, g.Cells())
    ensures Sane(r, g.Cells())
  {
    if steps == 0 then s else Stepped(Run(s, g, steps - 1), g)
  }

  lemma {:induction false} RunConserves(s: Maps, g: Size, steps: nat)
    requires g.Fits() && Sane(s, g.Cells())
    ensures Material(Run(s, g, steps)) == Material(s)
  {
    hide Material, Stepped;
    if steps > 0 {
      RunConserves(s, g, steps - 1);
      SteppedConserves(Run(s, g, steps - 1), g);
    }
  }

  /** Dry ground and no sediment, as at the start. */
  function Dry(hs: seq<real>): Maps {
    Maps(hs, seq(|hs|, k => 0.0), seq(|hs|, k => 0.0))
  }

  /** At the end all water goes and leaves its sediment behind. */
  function Settled(s: Maps): (r: seq<real>)
    requires |s.hs| == |s.ms|
    ensures |r| == |s.hs|
  {
    seq(|s.hs|, k requires 0 <= k < |s.hs| => s.hs[k] + s.ms[k])
  }

  /** What becomes of a picture. */
  function Eroded(hs: seq<real>, g: Size, steps: nat): (r: seq<real>)
    requires g.Fits() && |hs| == g.Cells()
    ensures |r| == |hs|
  {
    DrySane(hs);
    Settled(Run(Dry(hs), g, steps))
  }

  lemma DrySane(hs: seq<real>)
    ensures Sane(Dry(hs), |hs|)
  {}

  /** The heights after any number of steps sum up to the initial ones. */
  lemma HydraulicConserves(hs: seq<real>, g: Size, steps: nat)
    requires g.Fits() && |hs| == g.Cells()
    ensures Sum(Eroded(hs, g, steps)) == Sum(hs)
  {
    hide Run, Sum;
    DrySane(hs);
    var s, zero: seq<real> := Run(Dry(hs), g, steps), seq(|hs|, k => 0.0);
    RunConserves(Dry(hs), g, steps);
    SumPointwise(s.hs, s.ms, Settled(s), zero);
    ZeroSum(|hs|);
  }

  lemma {:induction false} ZeroSum(n: nat)
    ensures Sum(seq(n, k => 0.0)) == 0.0
  {
    if n > 0 {
      ZeroSum(n - 1);
      assert seq(n, k => 0.0)[..n - 1] == seq(n - 1, k => 0.0);
    }
  }

  // ----- in place

  lemma LowerNext(l: seq<real>, a: real, ns: seq<nat>, k: nat)
    requires Below(ns, |l|) && k < |l|
    ensures Below(ns + [k], |l|)
    ensures Count(l, a, ns + [k]) == Count(l, a, ns) + if a - l[k] > 0.0 then 1 else 0
    ensures LevelSum(l, a, ns + [k]) == LevelSum(l, a, ns) + if a - l[k] > 0.0 then l[k] else 0.0
    ensures Total(l, a, ns + [k], 0.0) == Total(l, a, ns, 0.0) + if a - l[k] > 0.0 then a - l[k] else 0.0
  {
    assert (ns + [k])[..|ns|] == ns;
  }

  lemma PourNext(s: Maps, c: nat, ns: seq<nat>, k: nat, a: real, moved: real, total: real, m: real, w: real)
    requires |s.hs| == |s.ws| == |s.ms| && c < |s.hs| && Below(ns, |s.hs|) && total != 0.0 && w != 0.0
    requires k < |s.hs|
    ensures Below(ns + [k], |s.hs|)
    ensures Pour(s, c, ns + [k], a, moved, total, m, w) ==
            PourOne(Pour(s, c, ns, a, moved, total, m, w), c, k, a, moved, total, m, w)
  {
    hide PourOne;
    assert (ns + [k])[..|ns|] == ns;
  }

  lemma NothingVisited(s: Maps, g: Size, x: nat, y: nat, a: real)
    requires g.Fits() && Sized(s, g.Cells()) && x < g.width && y < g.height
    ensures var none := Rows(g, x, y, Low(y), Low(y), Low(x), High(x, g.width));
            && none == [] && Below(none, g.Cells())
            && Count(Levels(s), a, none) == 0 && LevelSum(Levels(s), a, none) == 0.0
            && Total(Levels(s), a, none, 0.0) == 0.0
  {}

  lemma NothingPoured(s: Maps, c: nat, a: real, moved: real, total: real, m: real, w: real)
    requires |s.hs| == |s.ws| == |s.ms| && c < |s.hs| && total != 0.0 && w != 0.0
    ensures Pour(s, c, [], a, moved, total, m, w) == s
  {}

  class Landscape {
    const size: Size
    const heights: array<real>
    const water: array<real>
    const sediment: array<real>

    ghost predicate Valid()
      reads this
    {
      && size.Fits()
      && heights.Length == size.Cells() && water.Length == size.Cells() && sediment.Length == size.Cells()
      && heights != water && heights != sediment && water != sediment
    }

    ghost function State(): Maps
      reads this, heights, water, sediment
    {
      Maps(heights[..], water[..], sediment[..])
    }

    /** A copy of the heights, without water and sediment. */
    constructor (hMap: array<real>, size: Size)
      requires size.Fits() && hMap.Length == size.Cells()
      ensures Valid() && this.size == size && State() == Dry(hMap[..])
      ensures fresh(heights) && fresh(water) && fresh(sediment)
    {
      this.size := size;
      heights := new real[hMap.Length](k requires 0 <= k < hMap.Length reads hMap => hMap[k]);
      water := new real[hMap.Length](_ => 0.0);
      sediment := new real[hMap.Length](_ => 0.0);
      new;
      assert heights[..] == hMap[..];
      assert water[..] == Dry(hMap[..]).ws && sediment[..] == Dry(hMap[..]).ms;
    }

    /** The first pass over the cells around (x, y): which are lower than a. */
    method FindLower(x: nat, y: nat, a: real) returns (cellCount: nat, dTotal: real, aTotal: real)
      requires Valid() && x < size.width && y < size.height
      ensures Below(Stencil(size, x, y), heights.Length)
      ensures cellCount == Count(Levels(State()), a, Stencil(size, x, y))
      ensures dTotal == Total(Levels(State()), a, Stencil(size, x, y), 0.0)
      ensures aTotal == LevelSum(Levels(State()), a, Stencil(size, x, y))
    {
      hide Index, Row, Rows, Stencil, Total, Count, LevelSum, High, Low, Visited, Below;
      StencilAscending(size, x, y);
      ghost var s, l := State(), Levels(State());
      cellCount, dTotal, aTotal := 0, 0.0, 0.0;
      var i := Low(y);
      NothingVisited(s, size, x, y, a);
      while i < High(y, size.height)
        invariant Low(y) <= i && (i <= High(y, size.height) || i == Low(y))
        invariant Below(Rows(size, x, y, Low(y), i, Low(x), High(x, size.width)), |l|)
        invariant cellCount == Count(l, a, Rows(size, x, y, Low(y), i, Low(x), High(x, size.width)))
        invariant dTotal == Total(l, a, Rows(size, x, y, Low(y), i, Low(x), High(x, size.width)), 0.0)
        invariant aTotal == LevelSum(l, a, Rows(size, x, y, Low(y), i, Low(x), High(x, size.width)))
      {
        HighBound(y, size.height);
        var j := Low(x);
        VisitedBegins(size, x, y, i);
        while j < High(x, size.width)
          invariant Low(x) <= j && (j <= High(x, size.width) || j == Low(x))
          invariant Below(Visited(size, x, y, i, j), |l|)
          invariant cellCount == Count(l, a, Visited(size, x, y, i, j))
          invariant dTotal == Total(l, a, Visited(size, x, y, i, j), 0.0)
          invariant aTotal == LevelSum(l, a, Visited(size, x, y, i, j))
        {
          HighBound(x, size.width);
          VisitedNext(size, x, y, i, j);
          if !(j == x && i == y) {
            LowerNext(l, a, Visited(size, x, y, i, j), Index(size, j, i));
            var ai := heights[Index(size, j, i)] + water[Index(size, j, i)];
            var di := a - ai;
            if di > 0.0 {
              dTotal := dTotal + di;
              aTotal := aTotal + ai;
              cellCount := cellCount + 1;
            }
          } else {
            assert Visited(size, x, y, i, j + 1) == Visited(size, x, y, i, j);
          }
          j := j + 1;
        }
        VisitedRow(size, x, y, i, j);
        i := i + 1;
      }
      VisitedAll(size, x, y, i);
    }

    /** The second pass: water and its sediment move to the lower cells. */
    method PourAround(x: nat, y: nat, a: real, moved: real, dTotal: real, m: real, w: real)
      requires Valid() && x < size.width && y < size.height && dTotal != 0.0 && w != 0.0
      modifies water, sediment
      ensures Index(size, x, y) < heights.Length && Below(Stencil(size, x, y), heights.Length)
      ensures State() == Pour(old(State()), Index(size, x, y), Stencil(size, x, y), a, moved, dTotal, m, w)
    {
      hide Index, Row, Rows, Stencil, Pour, PourOne, Share, High, Low, Visited, Below;
      StencilAscending(size, x, y);
      ghost var s := State();
      var c := Index(size, x, y);
      var i := Low(y);
      NothingVisited(s, size, x, y, a);
      NothingPoured(s, c, a, moved, dTotal, m, w);
      while i < High(y, size.height)
        invariant Low(y) <= i && (i <= High(y, size.height) || i == Low(y))
        invariant Below(Rows(size, x, y, Low(y), i, Low(x), High(x, size.width)), |s.hs|)
        invariant State() == Pour(s, c, Rows(size, x, y, Low(y), i, Low(x), High(x, size.width)), a, moved, dTotal, m, w)
      {
        HighBound(y, size.height);
        var j := Low(x);
        VisitedBegins(size, x, y, i);
        while j < High(x, size.width)
          invariant Low(x) <= j && (j <= High(x, size.width) || j == Low(x))
          invariant Below(Visited(size, x, y, i, j), |s.hs|)
          invariant State() == Pour(s, c, Visited(size, x, y, i, j), a, moved, dTotal, m, w)
        {
          HighBound(x, size.width);
          VisitedNext(size, x, y, i, j);
          if !(j == x && i == y) {
            PourNext(s, c, Visited(size, x, y, i, j), Index(size, j, i), a, moved, dTotal, m, w);
            PourInto(Index(size, j, i), c, a, moved, dTotal, m, w);
          } else {
            assert Visited(size, x, y, i, j + 1) == Visited(size, x, y, i, j);
          }
          j := j + 1;
        }
        VisitedRow(size, x, y, i, j);
        i := i + 1;
      }
      VisitedAll(size, x, y, i);
    }

    method PourInto(k: nat, c: nat, a: real, moved: real, dTotal: real, m: real, w: real)
      requires Valid() && k < heights.Length && c < heights.Length && dTotal != 0.0 && w != 0.0
      modifies water, sediment
      ensures State() == PourOne(old(State()), c, k, a, moved, dTotal, m, w)
    {
      hide Share;
      var ai := heights[k] + water[k];
      var di := a - ai;
      if di > 0.0 {
        var deltaWi := Share(moved, di, dTotal);
        water[k] := water[k] + deltaWi;
        var deltaMi := Share(m, deltaWi, w);
        sediment[k] := sediment[k] + deltaMi;
        sediment[c] := sediment[c] - deltaMi;
      }
    }

    method WaterFlowCell(x: nat, y: nat)
      requires Valid() && x < size.width && y < size.height && Flowing(State(), size, x, y)
      modifies water, sediment
      ensures State() == FlowAt(old(State()), size, x, y)
    {
      hide Stencil, Pour, Count, Total, LevelSum, Index, Below, Flowing, Share;
      FlowAtSafe(State(), size, x, y);
      var c := Index(size, x, y);
      var w, h, m := water[c], heights[c], sediment[c];
      var a := h + w;
      var cellCount, dTotal, aTotal := FindLower(x, y, a);
      CountTotal(Levels(State()), a, Stencil(size, x, y));
      if cellCount < 1 {
        return;
      }
      var deltaA := a - aTotal / cellCount as real;
      PourAround(x, y, a, Min(w, deltaA), dTotal, m, w);
      water[c] := w - Min(w, deltaA);
    }
 
    /** Every cell gets some water. */
    method Rain()
      requires Valid()
      modifies water
      ensures State() == Rained(old(State()))
    {
      ghost var ws := water[..];
      for k: nat := 0 to water.Length
        invariant forall i :: 0 <= i < water.Length ==> water[i] == if i < k then ws[i] + K_RAIN else ws[i]
      {
        water[k] := water[k] + K_RAIN;
      }
      assert water[..] == Rained(old(State())).ws;
    }

    /** The water dissolves some of the ground. */
    method Dissolve()
      requires Valid()
      modifies heights, sediment
      ensures State() == Dissolved(old(State()))
    {
      ghost var s := State();
      for k: nat := 0 to heights.Length
        invariant water[..] == s.ws
        invariant forall i :: 0 <= i < heights.Length ==>
                    && heights[i] == (if i < k then s.hs[i] - K_SOLUBILITY * s.ws[i] else s.hs[i])
                    && sediment[i] == (if i < k then s.ms[i] + K_SOLUBILITY * s.ws[i] else s.ms[i])
      {
        var deltaM := K_SOLUBILITY * water[k];
        assert deltaM == K_SOLUBILITY * s.ws[k] by {
          assert water[..][k] == s.ws[k];
        }
        heights[k] := heights[k] - deltaM;
        sediment[k] := sediment[k] + deltaM;
      }
      assert heights[..] == Dissolved(s).hs && sediment[..] == Dissolved(s).ms;
    }

    method Flow()
      requires Valid() && Flowing(State(), size, 0, 0)
      modifies water, sediment
      ensures State() == FlowRows(old(State()), size, size.height)
    {
      hide FlowAt, Flowing, Index;
      ghost var s := State();
      for y: nat := 0 to size.height
        invariant State() == FlowRows(s, size, y)
      {
        FlowLine(y, s);
      }
    }

    method FlowLine(y: nat, ghost s: Maps)
      requires Valid() && y < size.height && Flowing(s, size, 0, 0) && State() == FlowRows(s, size, y)
      modifies water, sediment
      ensures State() == FlowRows(s, size, y + 1)
    {
      hide FlowAt, Flowing, Index;
      ghost var s1 := State();
      for x: nat := 0 to size.width
        invariant State() == FlowRow(s1, size, x, y)
      {
        WaterFlowCell(x, y);
      }
      NextRow(size, y);
    }

    /** Part of the water goes; sediment that it cannot carry settles. */
    method Evaporate()
      requires Valid()
      modifies heights, water, sediment
      ensures State() == Evaporated(old(State()))
    {
      ghost var s := State();
      for k: nat := 0 to heights.Length
        invariant forall i :: 0 <= i < heights.Length ==>
                    && heights[i] == (if i < k then s.hs[i] + Deposit(s.ms[i], s.ws[i]) else s.hs[i])
                    && water[i] == (if i < k then s.ws[i] * (1.0 - K_EVAPORATION) else s.ws[i])
                    && sediment[i] == (if i < k then s.ms[i] - Deposit(s.ms[i], s.ws[i]) else s.ms[i])
      {
        var h, m, w := heights[k], sediment[k], water[k];
        var wNew := w * (1.0 - K_EVAPORATION);
        var mMax := K_CAPACITY * wNew;
        var deltaM := if 0.0 > m - mMax then 0.0 else m - mMax;
        sediment[k] := m - deltaM;
        heights[k] := h + deltaM;
        water[k] := wNew;
      }
      assert heights[..] == Evaporated(s).hs && water[..] == Evaporated(s).ws && sediment[..] == Evaporated(s).ms;
    }

    method Step()
      requires Valid() && Sane(State(), size.Cells())
      modifies heights, water, sediment
      ensures State() == Stepped(old(State()), size) && Sane(State(), size.Cells())
    {
      hide FlowRows, Rained, Dissolved, Evaporated;
      ghost var s := State();
      RainedSafe(s, size.Cells());
      DissolvedSafe(Rained(s), size.Cells());
      Rain();
      Dissolve();
      Flow();
      Evaporate();
    }
  }
}
