/** Two rows erode as two columns do: the sweep of src/modules/erosion/erosion.c
    gives water away from one line of cells only, in either case in its order. */
module HydraulicSymmetry {
  import opened Grids
  import opened Sharing
  import opened HydraulicErosion
  import opened HydraulicSurvival
  import opened HydraulicWitness

  /** Where a cell of n columns and two rows lies with two columns and n rows. */
  function Across(n: nat, k: nat): nat {
    if k < n then 2 * k else 2 * (k - n) + 1
  }

  function Flip(s: seq<real>, n: nat): (r: seq<real>)
    requires |s| == 2 * n
    ensures |r| == 2 * n && forall k :: 0 <= k < 2 * n ==> Across(n, k) < 2 * n && r[k] == s[Across(n, k)]
  {
    seq(2 * n, k requires 0 <= k < 2 * n => s[Across(n, k)])
  }

  function Flipped(s: Maps, n: nat): (r: Maps)
    requires Sized(s, 2 * n)
    ensures Sized(r, 2 * n)
  {
    Maps(Flip(s.hs, n), Flip(s.ws, n), Flip(s.ms, n))
  }

  /** The cells around cell x of the second of two rows. */
  function Along(n: nat, x: nat): seq<nat>
    requires x > 0
  {
    if x + 1 < n then [x - 1, x, x + 1, n + x - 1, n + x + 1] else [x - 1, x, n + x - 1]
  }

  lemma WideRow(g: Size, x: nat, i: nat, j: nat)
    requires 1 <= x <= j && (j == x + 1 || j == x + 2)
    ensures Row(g, x, 1, i, x - 1, j) ==
            [Index(g, x - 1, i)] + (if i == 1 then [] else [Index(g, x, i)]) + if j == x + 2 then [Index(g, x + 1, i)] else []
  {
    assert Row(g, x, 1, i, x - 1, x - 1) == [];
    assert Row(g, x, 1, i, x - 1, x) == [Index(g, x - 1, i)];
    assert Row(g, x, 1, i, x - 1, x + 1) == Row(g, x, 1, i, x - 1, x) + (if x == x && i == 1 then [] else [Index(g, x, i)]);
  }

  lemma WideStencil(g: Size, x: nat)
    requires g.Fits() && g.height == 2 && 1 <= x < g.width < UINT_RANGE - 1
    ensures Stencil(g, x, 1) == Along(g.width, x)
  {
    var end := High(x, g.width);
    assert Low(1) == 0 && High(1, 2) == 2 && Low(x) == x - 1;
    assert end == if x + 1 < g.width then x + 2 else x + 1;
    WideRow(g, x, 0, end);
    WideRow(g, x, 1, end);
    assert Rows(g, x, 1, 0, 0, x - 1, end) == [];
    assert Rows(g, x, 1, 0, 1, x - 1, end) == Row(g, x, 1, 0, x - 1, end);
    assert Rows(g, x, 1, 0, 2, x - 1, end) == Row(g, x, 1, 0, x - 1, end) + Row(g, x, 1, 1, x - 1, end);
  }

  // ----- the order of the cells around does not matter

  lemma Sums(l: seq<real>, a: real, ns: seq<nat>, k: nat)
    requires Below(ns, |l|) && k < |l|
    ensures Below(ns + [k], |l|)
    ensures Count(l, a, ns + [k]) == Count(l, a, ns) + Count(l, a, [k])
    ensures LevelSum(l, a, ns + [k]) == LevelSum(l, a, ns) + LevelSum(l, a, [k])
    ensures Total(l, a, ns + [k], 0.0) == Total(l, a, ns, 0.0) + Total(l, a, [k], 0.0)
  {
    LowerNext(l, a, ns, k);
    LowerNext(l, a, [], k);
    assert [] + [k] == [k];
  }

  /** The three sums over some cells are those over single cells. */
  predicate Adds(l: seq<real>, a: real, ns: seq<nat>, ms: seq<nat>)
    requires Below(ns, |l|) && Below(ms, |l|)
  {
    && Count(l, a, ns) == Count(l, a, ms)
    && LevelSum(l, a, ns) == LevelSum(l, a, ms)
    && Total(l, a, ns, 0.0) == Total(l, a, ms, 0.0)
  }

  lemma SwapLast(l: seq<real>, a: real, ns: seq<nat>, i: nat, j: nat)
    requires Below(ns, |l|) && i < |l| && j < |l|
    ensures Adds(l, a, ns + [i] + [j], ns + [j] + [i])
  {
    hide Count, LevelSum, Total, Below;
    Sums(l, a, ns, i);
    Sums(l, a, ns, j);
    Sums(l, a, ns + [i], j);
    Sums(l, a, ns + [j], i);
  }

  lemma AddsNext(l: seq<real>, a: real, ns: seq<nat>, ms: seq<nat>, k: nat)
    requires Below(ns, |l|) && Below(ms, |l|) && k < |l| && Adds(l, a, ns, ms)
    ensures Adds(l, a, ns + [k], ms + [k])
  {
    hide Count, LevelSum, Total, Below;
    Sums(l, a, ns, k);
    Sums(l, a, ms, k);
  }

  /** The cells beside cell x, in the other order. */
  function Reordered(n: nat, x: nat): seq<nat>
    requires x > 0
  {
    if x + 1 < n then [2 * x - 2, 2 * x, 2 * x + 2, 2 * x - 1, 2 * x + 3] else [2 * x - 2, 2 * x, 2 * x - 1]
  }

  lemma ReorderedAdds(l: seq<real>, a: real, n: nat, x: nat)
    requires 1 <= x < n && |l| == 2 * n
    ensures Below(Beside(Size(2, n), x), |l|) && Below(Reordered(n, x), |l|)
    ensures Adds(l, a, Beside(Size(2, n), x), Reordered(n, x))
  {
    hide Count, LevelSum, Total;
    var p, q, r, t, u := 2 * x - 2, 2 * x - 1, 2 * x, 2 * x + 2, 2 * x + 3;
    SwapLast(l, a, [p], q, r);
    assert [p] + [q] + [r] == [p, q, r] && [p] + [r] + [q] == [p, r, q];
    assert Beside(Size(2, n), x) == if x + 1 < n then [p, q, r, t, u] else [p, q, r];
    if x + 1 < n {
      AddsNext(l, a, [p, q, r], [p, r, q], t);
      assert [p, q, r] + [t] == [p, q, r, t] && [p, r, q] + [t] == [p, r] + [q] + [t];
      SwapLast(l, a, [p, r], q, t);
      assert [p, r] + [t] + [q] == [p, r, t, q];
      AddsNext(l, a, [p, q, r, t], [p, r, t, q], u);
      assert [p, q, r, t] + [u] == [p, q, r, t, u] && [p, r, t, q] + [u] == [p, r, t, q, u];
    }
  }

  /** The same cells of the flipped grid, in the same order. */
  lemma {:induction false} FlippedSums(l: seq<real>, n: nat, a: real, ns: seq<nat>, ms: seq<nat>)
    requires |l| == 2 * n && |ns| == |ms| && Below(ns, 2 * n) && Below(ms, 2 * n)
    requires forall k :: 0 <= k < |ns| ==> ms[k] == Across(n, ns[k])
    ensures Count(Flip(l, n), a, ns) == Count(l, a, ms) && LevelSum(Flip(l, n), a, ns) == LevelSum(l, a, ms)
    ensures Total(Flip(l, n), a, ns, 0.0) == Total(l, a, ms, 0.0)
    decreases |ns|
  {
    hide Flip;
    if ns != [] {
      FlippedSums(l, n, a, ns[..|ns| - 1], ms[..|ns| - 1]);
    }
  }

  lemma FlippedLevels(s: Maps, n: nat)
    requires Sized(s, 2 * n)
    ensures Levels(Flipped(s, n)) == Flip(Levels(s), n)
  {}

  lemma AlongAround(s: seq<real>, n: nat, x: nat)
    requires |s| == 2 * n && 1 <= x < n
    ensures Around(s, n + x, Along(n, x)) && Around(s, 2 * x + 1, Beside(Size(2, n), x)) && |Reordered(n, x)| == |Along(n, x)|
    ensures forall k :: 0 <= k < |Along(n, x)| ==> Reordered(n, x)[k] == Across(n, Along(n, x)[k])
    ensures forall k :: 0 <= k < 2 * n ==> (k in Along(n, x) <==> Across(n, k) in Beside(Size(2, n), x))
  {}

  lemma FlippedAt(s: Maps, n: nat, x: nat, k: nat)
    requires Sized(s, 2 * n) && k < 2 * n && x < n
    ensures var f, j := Flipped(s, n), Across(n, k);
            && j < 2 * n && f.hs[k] == s.hs[j] && f.ws[k] == s.ws[j] && f.ms[k] == s.ms[j]
            && (k == n + x <==> j == 2 * x + 1) && f.ms[n + x] == s.ms[2 * x + 1]
  {}

  /** What each cell has after pouring in the flipped grid. */
  lemma FlippedPour(s: Maps, n: nat, x: nat, moved: real, total: real, k: nat)
    requires Sane(s, 2 * n) && 1 <= x < n && s.ws[2 * x + 1] > 0.0 && total != 0.0 && k < 2 * n
    requires Below(Along(n, x), 2 * n) && Below(Beside(Size(2, n), x), 2 * n)
    requires Total(Levels(s), Levels(s)[2 * x + 1], Beside(Size(2, n), x), 0.0) == total
    requires Total(Levels(Flipped(s, n)), Levels(s)[2 * x + 1], Along(n, x), 0.0) == total
    ensures var a, w, m := Levels(s)[2 * x + 1], s.ws[2 * x + 1], s.ms[2 * x + 1];
            var r, f := Pour(s, 2 * x + 1, Beside(Size(2, n), x), a, moved, total, m, w),
                        Pour(Flipped(s, n), n + x, Along(n, x), a, moved, total, m, w);
            f.ws[k] == r.ws[Across(n, k)] && f.ms[k] == r.ms[Across(n, k)]
  {
    hide Total, Pour, Along, Beside, Share, Around, Below, Levels, Flipped, Across;
    var f, j, a, w, m := Flipped(s, n), Across(n, k), Levels(s)[2 * x + 1], s.ws[2 * x + 1], s.ms[2 * x + 1];
    AlongAround(s.hs, n, x);
    AlongAround(f.hs, n, x);
    FlippedAt(s, n, x, k);
    PourAt(s, 2 * x + 1, Beside(Size(2, n), x), a, moved, total, m, w, j);
    PourAt(f, n + x, Along(n, x), a, moved, total, m, w, k);
  }

  lemma NothingFlows(s: Maps, c: nat, ns: seq<nat>)
    requires Sized(s, |s.hs|) && c < |s.hs| && Below(ns, |s.hs|) && s.ws[c] > 0.0 && Count(Levels(s), Levels(s)[c], ns) < 1
    ensures FlowCell(s, c, ns) == s
  {}

  /** The sums over the cells around a cell are those of the other grid. */
  lemma FlippedAround(s: Maps, n: nat, x: nat)
    requires Sane(s, 2 * n) && 1 <= x < n && s.ws[2 * x + 1] > 0.0
    ensures Below(Along(n, x), 2 * n) && Below(Beside(Size(2, n), x), 2 * n)
    ensures Levels(Flipped(s, n))[n + x] == Levels(s)[2 * x + 1] && Flipped(s, n).ws[n + x] == s.ws[2 * x + 1]
    ensures var l, f, a := Levels(s), Levels(Flipped(s, n)), Levels(s)[2 * x + 1];
            && Count(f, a, Along(n, x)) == Count(l, a, Beside(Size(2, n), x))
            && LevelSum(f, a, Along(n, x)) == LevelSum(l, a, Beside(Size(2, n), x))
            && Total(f, a, Along(n, x), 0.0) == Total(l, a, Beside(Size(2, n), x), 0.0)
  {
    hide Count, LevelSum, Total, Along, Beside, Reordered, Ascending;
    var l, a := Levels(s), Levels(s)[2 * x + 1];
    AlongAround(s.hs, n, x);
    FlippedLevels(s, n);
    ReorderedAdds(l, a, n, x);
    FlippedSums(l, n, a, Along(n, x), Reordered(n, x));
  }

  /** One cell gives water in the flipped grid as in the other one. */
  lemma FlippedFlow(s: Maps, n: nat, x: nat)
    requires Sane(s, 2 * n) && 1 <= x < n && s.ws[2 * x + 1] > 0.0
    ensures Below(Along(n, x), 2 * n) && Below(Beside(Size(2, n), x), 2 * n) && Flipped(s, n).ws[n + x] == s.ws[2 * x + 1]
    ensures FlowCell(Flipped(s, n), n + x, Along(n, x)) == Flipped(FlowCell(s, 2 * x + 1, Beside(Size(2, n), x)), n)
  {
    hide Count, LevelSum, Total, Pour, Along, Beside, FlowCell, Levels, Below;
    FlippedAround(s, n, x);
    var c, ns, f := 2 * x + 1, Beside(Size(2, n), x), Flipped(s, n);
    var l, a := Levels(s), Levels(s)[c];
    var count, total := Count(l, a, ns), Total(l, a, ns, 0.0);
    CountTotal(l, a, ns);
    if count < 1 {
      NothingFlows(s, c, ns);
      NothingFlows(f, n + x, Along(n, x));
    } else {
      var moved := Min(s.ws[c], a - LevelSum(l, a, ns) / count as real);
      FlowIs(s, c, ns, total, moved);
      FlowIs(f, n + x, Along(n, x), total, moved);
      forall k: nat | k < 2 * n
        ensures FlowCell(f, n + x, Along(n, x)).ws[k] == FlowCell(s, c, ns).ws[Across(n, k)]
        ensures FlowCell(f, n + x, Along(n, x)).ms[k] == FlowCell(s, c, ns).ms[Across(n, k)]
      {
        FlippedPour(s, n, x, moved, total, k);
      }
    }
  }

  // ----- whole runs

  lemma WideNext(f: Maps, g: Size, x: nat)
    requires Flowing(f, g, 0, 1) && g.height == 2 && 1 <= x < g.width < UINT_RANGE - 1
    ensures var t := FlowRow(f, g, x, 1);
            && g.width + x < |t.ws| == |t.hs| == |t.ms| && t.ws[g.width + x] > 0.0 && Below(Along(g.width, x), |t.hs|)
            && FlowRow(f, g, x + 1, 1) == FlowCell(t, g.width + x, Along(g.width, x))
  {
    hide FlowCell, Along, Stencil;
    var t := FlowRow(f, g, x, 1);
    WideStencil(g, x);
    FlowAtSafe(t, g, x, 1);
  }

  lemma WideFirst(f: Maps, g: Size)
    requires Flowing(f, g, 0, 1) && g.height == 2 && g.width >= 1
    ensures FlowRow(f, g, 1, 1) == f
  {
    hide FlowAt;
    BorderFlow(f, g, 0, 1);
    assert FlowRow(f, g, 0, 1) == f;
  }

  lemma FlowingSized(s: Maps, g: Size)
    requires Flowing(s, g, 0, 0)
    ensures Sized(s, g.Cells())
  {}

  lemma {:induction false} FlippedRow(s: Maps, n: nat, x: nat)
    requires 1 <= x <= n < UINT_RANGE - 1 && Flowing(s, Size(2, n), 0, 0) && Flowing(Flipped(s, n), Size(n, 2), 0, 1)
    ensures FlowRow(Flipped(s, n), Size(n, 2), x, 1) == Flipped(FlowRows(s, Size(2, n), x), n)
    decreases x
  {
    hide FlowRow, FlowRows, FlowCell, Flipped, Flowing, Along, Beside, Index, Around;
    FlowingSized(s, Size(2, n));
    if x == 1 {
      NarrowFirst(s, Size(2, n));
      WideFirst(Flipped(s, n), Size(n, 2));
    } else {
      FlippedRow(s, n, x - 1);
      NarrowNext(s, Size(2, n), x - 1);
      WideNext(Flipped(s, n), Size(n, 2), x - 1);
      FlippedFlow(FlowRows(s, Size(2, n), x - 1), n, x - 1);
    }
  }

  lemma FlippedFlowing(s: Maps, n: nat)
    requires 1 <= n < UINT_RANGE - 1 && Flowing(s, Size(2, n), 0, 0)
    ensures Flowing(Flipped(s, n), Size(n, 2), 0, 0) && Flowing(Flipped(s, n), Size(n, 2), 0, 1)
  {}

  lemma FlippedRows(s: Maps, n: nat)
    requires 1 <= n < UINT_RANGE - 1 && Flowing(s, Size(2, n), 0, 0)
    ensures Flowing(Flipped(s, n), Size(n, 2), 0, 0)
    ensures FlowRows(Flipped(s, n), Size(n, 2), 2) == Flipped(FlowRows(s, Size(2, n), n), n)
  {
    hide FlowRow, Flipped, Flowing;
    FlowingSized(s, Size(2, n));
    var f, g := Flipped(s, n), Size(n, 2);
    FlippedFlowing(s, n);
    NextRow(g, 0);
    FlatRow(f, g, n, 0);
    assert FlowRows(f, g, 0) == f;
    assert FlowRows(f, g, 1) == f;
    FlippedRow(s, n, n);
    NextRow(g, 1);
    assert FlowRows(f, g, 2) == FlowRow(f, g, n, 1);
  }

  lemma FlippedRain(s: Maps, n: nat)
    requires Sized(s, 2 * n)
    ensures Dissolved(Rained(Flipped(s, n))) == Flipped(Dissolved(Rained(s)), n)
  {
    var r, f := Dissolved(Rained(s)), Dissolved(Rained(Flipped(s, n)));
    assert f.ws == Flip(r.ws, n);
    assert f.hs == Flip(r.hs, n) && f.ms == Flip(r.ms, n);
  }

  lemma FlippedEvaporation(s: Maps, n: nat)
    requires Sized(s, 2 * n)
    ensures Evaporated(Flipped(s, n)) == Flipped(Evaporated(s), n)
  {
    hide Deposit;
    var r, f := Evaporated(s), Evaporated(Flipped(s, n));
    assert f.ws == Flip(r.ws, n);
    assert f.hs == Flip(r.hs, n) && f.ms == Flip(r.ms, n);
  }

  lemma FlippedStep(s: Maps, n: nat)
    requires 1 <= n < UINT_RANGE - 1 && Sane(s, 2 * n)
    ensures Sane(Flipped(s, n), 2 * n) && Stepped(Flipped(s, n), Size(n, 2)) == Flipped(Stepped(s, Size(2, n)), n)
  {
    hide FlowRows, Stepped, Dissolved, Rained, Evaporated;
    RainThenDissolve(s, Size(2, n));
    RainThenDissolve(Flipped(s, n), Size(n, 2));
    FlippedRain(s, n);
    FlippedRows(Dissolved(Rained(s)), n);
    FlippedEvaporation(FlowRows(Dissolved(Rained(s)), Size(2, n), n), n);
  }

  lemma {:induction false} FlippedRun(s: Maps, n: nat, k: nat)
    requires 1 <= n < UINT_RANGE - 1 && Sane(s, 2 * n)
    ensures Sane(Flipped(s, n), 2 * n) && Run(Flipped(s, n), Size(n, 2), k) == Flipped(Run(s, Size(2, n), k), n)
    decreases k
  {
    hide Stepped;
    if k > 0 {
      FlippedRun(s, n, k - 1);
      FlippedStep(Run(s, Size(2, n), k - 1), n);
    }
  }

  /** A picture of two rows erodes as the same picture of two columns. */
  lemma FlippedErodes(hs: seq<real>, n: nat, k: nat)
    requires 1 <= n < UINT_RANGE - 1 && |hs| == 2 * n
    ensures Eroded(Flip(hs, n), Size(n, 2), k) == Flip(Eroded(hs, Size(2, n), k), n)
  {
    hide Run;
    DrySane(hs);
    DrySane(Flip(hs, n));
    assert Dry(Flip(hs, n)) == Flipped(Dry(hs), n);
    FlippedRun(Dry(hs), n, k);
  }

  /** The other way round. */
  function Back(s: seq<real>, n: nat): (r: seq<real>)
    requires |s| == 2 * n
    ensures |r| == 2 * n && Flip(r, n) == s
    ensures forall k :: 0 <= k < 2 * n ==> r[k] in s
  {
    var r := seq(2 * n, k requires 0 <= k < 2 * n => s[if k % 2 == 0 then k / 2 else n + k / 2]);
    assert forall k :: 0 <= k < 2 * n ==> Flip(r, n)[k] == s[k];
    r
  }

  lemma FlippedDisplayable(s: seq<real>, n: nat)
    requires |s| == 2 * n
    ensures Displayable(Flip(s, n)) <==> Displayable(s)
  {
    forall k | 0 <= k < 2 * n
      ensures s[k] in Flip(s, n)
    {
      var j := if k % 2 == 0 then k / 2 else n + k / 2;
      assert Across(n, j) == k && Flip(s, n)[j] == s[k];
    }
  }

  /** So the same pictures survive. */
  lemma SidesAlike(n: nat, k: nat)
    requires 1 <= n < UINT_RANGE - 1
    ensures Survives(Size(n, 2), k) <==> Survives(Size(2, n), k)
  {
    hide Eroded, Displayable, Flip, Back;
    forall hs, j: nat | j <= k && |hs| == 2 * n
      ensures Displayable(Flip(hs, n)) <==> Displayable(hs)
      ensures Displayable(Eroded(Flip(hs, n), Size(n, 2), j)) <==> Displayable(Eroded(hs, Size(2, n), j))
    {
      FlippedErodes(hs, n, j);
      FlippedDisplayable(hs, n);
      FlippedDisplayable(Eroded(hs, Size(2, n), j), n);
    }
    forall hs | |hs| == 2 * n
      ensures Flip(Back(hs, n), n) == hs
    {}
  }

  /** With two rows and at least four columns, too, two steps are too many. */
  lemma WideExactly(g: Size, n: nat)
    requires g.height == 2 && 4 <= g.width < UINT_RANGE - 1
    ensures g.Fits() && (Survives(g, n) <==> n <= 1)
  {
    hide Survives;
    SidesAlike(g.width, n);
    NarrowExactly(Size(2, g.width), n);
    assert g == Size(g.width, 2);
  }
}
