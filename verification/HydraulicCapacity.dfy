/** How much sediment the water carries, and when it leaves some behind,
    src/modules/erosion/erosion.c:251-295. */
module HydraulicCapacity {
  import opened Grids
  import opened Sharing
  import opened HydraulicErosion
  import opened HydraulicSurvival

  /** No water carries more than three tenths of itself. */
  ghost predicate Carried(s: Maps) {
    |s.ws| == |s.ms| && forall k :: 0 <= k < |s.ms| ==> s.ms[k] <= 0.3 * s.ws[k]
  }

  /** The state in which the water flows: 0.01 more water in every cell, and a
      hundredth of it dissolved from the ground. */
  ghost predicate Soaked(s: Maps, p: Maps) {
    && Sized(s, |s.hs|) && Sized(p, |s.hs|)
    && forall k :: 0 <= k < |s.hs| ==>
         && p.ws[k] == s.ws[k] + 0.01
         && p.hs[k] == s.hs[k] - 0.01 * p.ws[k]
         && p.ms[k] == s.ms[k] + 0.01 * p.ws[k]
  }

  /** Half of the water has gone. What the rest cannot carry lies on the ground,
      and it can carry three tenths of itself. */
  ghost predicate Dried(s: Maps, r: Maps) {
    && Sized(s, |s.hs|) && Sized(r, |s.hs|)
    && forall k :: 0 <= k < |s.hs| ==>
         && r.ws[k] + r.ws[k] == s.ws[k]
         && r.hs[k] + r.ms[k] == s.hs[k] + s.ms[k]
         && r.ms[k] <= s.ms[k] && r.ms[k] <= 0.3 * r.ws[k]
         && (r.ms[k] == s.ms[k] || r.ms[k] == 0.3 * r.ws[k])
  }

  lemma SoakedExactly(s: Maps, n: nat)
    requires Sized(s, n)
    ensures Soaked(s, Dissolved(Rained(s)))
  {}

  lemma DriedExactly(s: Maps, n: nat)
    requires Sized(s, n)
    ensures Dried(s, Evaporated(s))
  {}

  /** One step soaks the ground, lets the water flow once and dries it. */
  lemma StepExactly(s: Maps, g: Size)
    requires g.Fits() && Sane(s, g.Cells())
    ensures exists p :: Soaked(s, p) && Flowing(p, g, 0, 0) && Dried(FlowRows(p, g, g.height), Stepped(s, g))
  {
    hide FlowRows, Rained, Dissolved, Evaporated, Soaked, Dried;
    RainThenDissolve(s, g);
    SoakedExactly(s, g.Cells());
    DriedExactly(FlowRows(Dissolved(Rained(s)), g, g.height), g.Cells());
  }

  /** After every step no water carries more than it can. */
  lemma RunCarried(s: Maps, g: Size, steps: nat)
    requires g.Fits() && Sane(s, g.Cells()) && (steps == 0 ==> Carried(s))
    ensures Carried(Run(s, g, steps))
  {
    hide Stepped, FlowRows;
    if steps > 0 { StepExactly(Run(s, g, steps - 1), g); }
  }

  /** At the end the remaining sediment settles: not more than the remaining
      water can carry. */
  lemma LastSediment(hs: seq<real>, g: Size, steps: nat, k: nat)
    requires g.Fits() && |hs| == g.Cells() && Sane(Dry(hs), g.Cells()) && k < |hs|
    ensures var s := Run(Dry(hs), g, steps);
            && Eroded(hs, g, steps)[k] - s.hs[k] == s.ms[k]
            && s.hs[k] <= Eroded(hs, g, steps)[k] <= s.hs[k] + 0.3 * s.ws[k]
  {
    hide Run;
    RunCarried(Dry(hs), g, steps);
  }

  // ----- when sediment is left behind

  /** The step leaves sediment in cell k: the ground lost less than was
      dissolved from it. */
  ghost predicate Deposits(s: Maps, g: Size, k: nat)
    requires g.Fits() && Sane(s, g.Cells()) && k < g.Cells()
  {
    Stepped(s, g).hs[k] > s.hs[k] - 0.01 * (s.ws[k] + 0.01)
  }

  /** That happens exactly where the flow brought more than the water that
      remains can carry. */
  lemma DepositsExactly(s: Maps, p: Maps, g: Size, k: nat)
    requires g.Fits() && Sane(s, g.Cells()) && k < g.Cells() && Soaked(s, p)
    ensures Flowing(p, g, 0, 0)
    ensures var f := FlowRows(p, g, g.height); Deposits(s, g, k) <==> f.ms[k] > 0.3 * (f.ws[k] / 2.0)
  {
    hide FlowRows, Stepped;
    StepExactly(s, g);
    RainThenDissolve(s, g);
    SoakedOnce(s, p, Dissolved(Rained(s)));
  }

  lemma SoakedOnce(s: Maps, p: Maps, q: Maps)
    requires Soaked(s, p) && Soaked(s, q)
    ensures p == q
  {
    assert p.hs == q.hs && p.ws == q.ws && p.ms == q.ms;
  }

  ghost predicate Barren(s: Maps, g: Size)
    requires g.Fits() && Sane(s, g.Cells())
  {
    forall k: nat :: k < g.Cells() ==> !Deposits(s, g, k)
  }

  lemma SoakedSums(s: Maps, n: nat)
    requires Sized(s, n)
    ensures var p := Dissolved(Rained(s));
            && Sum(p.ws) == Sum(s.ws) + 0.01 * n as real
            && Sum(p.ms) == Sum(s.ms) + 0.01 * Sum(p.ws)
  {
    hide Sum;
    RainAdds(s);
    SumLinear(s.ms, Rained(s).ws, Dissolved(Rained(s)).ms, 0.01, 0.0);
  }

  lemma DriedSums(s: Maps, n: nat)
    requires Sized(s, n)
    ensures Sum(Evaporated(s).ws) == Sum(s.ws) / 2.0
    ensures (forall k :: 0 <= k < n ==> s.ms[k] <= 0.3 * (s.ws[k] / 2.0)) ==> Evaporated(s).ms == s.ms
  {
    hide Sum;
    SumLinear(seq(n, i => 0.0), s.ws, Evaporated(s).ws, 0.5, 0.0);
    ZeroSum(n);
  }

  /** What one step makes of all the water, and of all the sediment in it if
      none is left behind. */
  lemma StepSums(s: Maps, g: Size)
    requires g.Fits() && Sane(s, g.Cells())
    ensures var n, r := g.Cells() as real, Stepped(s, g);
            && Sum(r.ws) == (Sum(s.ws) + 0.01 * n) / 2.0
            && (Barren(s, g) ==> Sum(r.ms) == Sum(s.ms) + 0.01 * (Sum(s.ws) + 0.01 * n))
  {
    hide Sum, FlowRows, Rained, Dissolved, Evaporated, Deposits, Stepped, Soaked;
    var p := Dissolved(Rained(s));
    RainThenDissolve(s, g);
    SoakedExactly(s, g.Cells());
    SoakedSums(s, g.Cells());
    FlowRowsSafe(p, g, g.height);
    FlowSediment(p, g, g.height);
    var f := FlowRows(p, g, g.height);
    DriedSums(f, g.Cells());
    if Barren(s, g) {
      forall k: nat | k < g.Cells()
        ensures f.ms[k] <= 0.3 * (f.ws[k] / 2.0)
      {
        DepositsExactly(s, p, g, k);
      }
    }
  }

  lemma FlowSediment(p: Maps, g: Size, y: nat)
    requires Flowing(p, g, 0, 0) && y <= g.height
    ensures Sum(FlowRows(p, g, y).ms) == Sum(p.ms)
  {
    hide Sum, FlowRows;
    FlowRowsSafe(p, g, y);
  }

  /** One half, t times over. */
  function Halved(t: nat): (r: real)
    ensures 0.0 < r <= 1.0
  {
    if t == 0 then 1.0 else Halved(t - 1) / 2.0
  }

  /** All the water after t steps, and all the sediment while none was left behind. */
  lemma {:induction false} RunSums(hs: seq<real>, g: Size, t: nat)
    requires g.Fits() && |hs| == g.Cells() && Sane(Dry(hs), g.Cells())
    ensures var n, r := g.Cells() as real, Run(Dry(hs), g, t);
            && Sum(r.ws) == 0.01 * n * (1.0 - Halved(t))
            && ((forall i: nat :: i < t ==> Barren(Run(Dry(hs), g, i), g)) ==>
                  Sum(r.ms) == 0.0002 * n * (t as real - 1.0 + Halved(t)))
  {
    hide Sum, Stepped, Barren;
    if t == 0 {
      ZeroSum(|hs|);
    } else {
      RunSums(hs, g, t - 1);
      StepSums(Run(Dry(hs), g, t - 1), g);
      Gains(g.Cells() as real, t as real, Halved(t - 1));
    }
  }

  lemma Gains(n: real, t: real, h: real)
    ensures (0.01 * n * (1.0 - h) + 0.01 * n) / 2.0 == 0.01 * n * (1.0 - h / 2.0)
    ensures 0.0002 * n * (t - 1.0 - 1.0 + h) + 0.01 * (0.01 * n * (1.0 - h) + 0.01 * n) == 0.0002 * n * (t - 1.0 + h / 2.0)
  {}

  lemma CarriedSums(s: Maps)
    requires Carried(s)
    ensures Sum(s.ms) <= 0.3 * Sum(s.ws)
  {
    hide Sum;
    var most := seq(|s.ws|, k requires 0 <= k < |s.ws| => 0.3 * s.ws[k]);
    SumLinear(seq(|s.ws|, i => 0.0), s.ws, most, 0.3, 0.0);
    ZeroSum(|s.ws|);
    SumOrdered(most, s.ms);
  }

  /** Every picture with a cell has one that sediment is left in within the
      first 16 steps. */
  lemma DepositReached(hs: seq<real>, g: Size)
    requires g.Fits() && |hs| == g.Cells() && g.Cells() > 0 && Sane(Dry(hs), g.Cells())
    ensures exists t: nat, k: nat :: t < 16 && k < g.Cells() && Deposits(Run(Dry(hs), g, t), g, k)
  {
    hide Sum, Stepped, Deposits;
    var steps := 16;
    RunSums(hs, g, steps);
    RunCarried(Dry(hs), g, steps);
    CarriedSums(Run(Dry(hs), g, steps));
    TooMuch(g.Cells() as real, Halved(steps));
    if t: nat :| t < steps && !Barren(Run(Dry(hs), g, t), g) {
      var k: nat :| k < g.Cells() && Deposits(Run(Dry(hs), g, t), g, k);
    } else {
      assert false;
    }
  }

  lemma TooMuch(n: real, h: real)
    requires n > 0.0 && h > 0.0
    ensures 0.0002 * n * (15.0 + h) > 0.3 * (0.01 * n * (1.0 - h))
  {
    assert n * h > 0.0;
  }

  ghost predicate Uniform(s: Maps, w: real, m: real) {
    Sized(s, |s.hs|) && forall k :: 0 <= k < |s.hs| ==> s.ws[k] == w && s.ms[k] == m
  }

  /** In one row or one column, where nothing flows, the first 15 steps leave
      nothing behind. */
  lemma {:induction false} FlatDeposits(hs: seq<real>, g: Size, t: nat)
    requires g.Fits() && |hs| == g.Cells() && (g.width <= 1 || g.height <= 1) && t <= 15
    requires Sane(Dry(hs), g.Cells())
    ensures Uniform(Run(Dry(hs), g, t), 0.01 * (1.0 - Halved(t)), 0.0002 * (t as real - 1.0 + Halved(t)))
    ensures forall i: nat :: i < t ==> Barren(Run(Dry(hs), g, i), g)
  {
    hide Stepped, Deposits;
    if t > 0 {
      FlatDeposits(hs, g, t - 1);
      StillCarried(t, Halved(t - 1));
      FlatStepAt(Run(Dry(hs), g, t - 1), g, t, Halved(t - 1));
    }
  }

  lemma FlatStepAt(s: Maps, g: Size, t: nat, h: real)
    requires g.Fits() && (g.width <= 1 || g.height <= 1) && t > 0 && Sane(s, g.Cells())
    requires 0.0002 * (t as real - 1.0 + h / 2.0) <= 0.3 * (0.01 * (1.0 - h / 2.0))
    requires Uniform(s, 0.01 * (1.0 - h), 0.0002 * ((t - 1) as real - 1.0 + h))
    ensures Barren(s, g)
    ensures Uniform(Stepped(s, g), 0.01 * (1.0 - h / 2.0), 0.0002 * (t as real - 1.0 + h / 2.0))
  {
    hide Stepped, FlowRows;
    RainThenDissolve(s, g);
    FlatRows(Dissolved(Rained(s)), g, g.height);
  }

  lemma {:induction false} HalvedLate(t: nat)
    requires t >= 3
    ensures Halved(t) <= 0.125
  {
    if t > 3 {
      HalvedLate(t - 1);
    } else {
      assert Halved(t - 1) == Halved(t - 2) / 2.0;
    }
  }

  lemma StillCarried(t: nat, h: real)
    requires 0 < t <= 15 && h == Halved(t - 1)
    ensures 0.0002 * (t as real - 1.0 + h / 2.0) <= 0.3 * (0.01 * (1.0 - h / 2.0))
  {
    if t > 8 { HalvedLate(t - 1); }
  }
}
