/** The grids that are too small for two steps to go wrong as they do on the
    larger ones, src/modules/erosion/erosion.c:219-317. */
module HydraulicSmall {
  import opened Grids
  import opened Sharing
  import opened HydraulicErosion
  import opened HydraulicSurvival
  import opened HydraulicWitness
  import opened HydraulicSymmetry

  /** With three rows or columns instead of four, three steps are too many. */
  lemma SmallFails(n: nat)
    requires n >= 3
    ensures !Survives(Size(2, 3), n) && !Survives(Size(3, 2), n)
  {
    hide Eroded, Trench;
    TrenchFails();
    assert !Displayable(Eroded(Trench(), Size(2, 3), 3));
    SidesAlike(3, n);
  }

  /** A cell after the rain of the second step, where the water of the first
      one carried as much sediment as it had dissolved. */
  predicate Second(h: real, w: real, m: real) {
    && -0.0001 <= h + 0.01 * w <= 0.9999
    && 0.0299 <= h + 2.01 * w <= 1.0299
    && m == 0.03 * w - 0.0002
  }

  ghost predicate SecondRain(s: Maps) {
    && |s.hs| == |s.ws| == |s.ms|
    && forall k :: 0 <= k < |s.hs| ==> Second(s.hs[k], s.ws[k], s.ms[k])
  }

  lemma SecondLevels(h: real, w: real, m: real)
    requires Second(h, w, m)
    ensures 0.01475 <= h + w <= 1.01475
    ensures 0.0 <= h + m - 0.02 * (h + w - 0.01475) && h + m + 0.02 * (1.01475 - (h + w)) <= 1.0
    ensures 0.0 <= h + m <= 1.0
  {
    assert h + w == 0.505 * (h + 0.01 * w) + 0.495 * (h + 2.01 * w);
    assert 0.98 * h + 0.01 * w == 0.9799 * (h + 0.01 * w) + 0.0001 * (h + 2.01 * w);
  }

  /** At most a fiftieth of the water is sediment. */
  lemma ThinShare(m: real, water: real, w: real)
    requires 0.0 < w && 0.0 <= m <= 0.02 * w && water >= 0.0
    ensures 0.0 <= Share(m, water, w) <= 0.02 * water
  {
    assert m * water <= 0.02 * w * water;
    assert m * water / w <= 0.02 * water * w / w;
    assert m * water >= 0.0;
  }

  /** In the second step a cell that has no more than the rain of two steps
      cannot lead out of [0,1]. */
  lemma SecondFlow(s: Maps, c: nat, ns: seq<nat>)
    requires Sane(s, |s.hs|) && SecondRain(s) && Around(s.hs, c, ns) && 0.01 <= s.ws[c] <= 0.015
    ensures forall k :: 0 <= k < |s.hs| ==> 0.0 <= FlowCell(s, c, ns).hs[k] + FlowCell(s, c, ns).ms[k] <= 1.0
  {
    hide Share, Count, LevelSum, Total, Pour, Ascending, Below, Second, FlowCell;
    var l, a, w, m := Levels(s), Levels(s)[c], s.ws[c], s.ms[c];
    CountTotal(l, a, ns);
    var count, total := Count(l, a, ns), Total(l, a, ns, 0.0);
    forall k: nat | k < |s.hs|
      ensures 0.01475 <= l[k] <= 1.01475 && 0.0 <= s.hs[k] + s.ms[k] <= 1.0
    {
      SecondLevels(s.hs[k], s.ws[k], s.ms[k]);
    }
    if count < 1 {
      NothingFlows(s, c, ns);
    } else {
      MeanDifference(l, a, ns);
      LevelSumAbove(l, a, ns, 0.01475);
      MeanAbove(LevelSum(l, a, ns), count as real, 0.01475);
      MeanAtMostTotal(total, count as real);
      var moved := Min(w, a - LevelSum(l, a, ns) / count as real);
      FlowIs(s, c, ns, total, moved);
      AroundNotSelf(s.hs, c, ns);
      forall k: nat | k < |s.hs|
        ensures 0.0 <= s.hs[k] + Pour(s, c, ns, a, moved, total, m, w).ms[k] <= 1.0
      {
        SecondFlowAt(s, c, ns, moved, total, k);
      }
    }
  }

  lemma SecondFlowAt(s: Maps, c: nat, ns: seq<nat>, moved: real, total: real, k: nat)
    requires Sane(s, |s.hs|) && SecondRain(s) && Around(s.hs, c, ns) && 0.01 <= s.ws[c] <= 0.015 && k < |s.hs| && c !in ns
    requires 0.0 <= moved <= Levels(s)[c] - 0.01475 && moved <= total && total > 0.0
    requires total == Total(Levels(s), Levels(s)[c], ns, 0.0)
    ensures 0.0 <= s.hs[k] + Pour(s, c, ns, Levels(s)[c], moved, total, s.ms[c], s.ws[c]).ms[k] <= 1.0
  {
    hide Share, Total, Pour, Ascending, Below;
    var a, w, m := Levels(s)[c], s.ws[c], s.ms[c];
    SecondLevels(s.hs[k], s.ws[k], s.ms[k]);
    SecondLevels(s.hs[c], w, m);
    PourAt(s, c, ns, a, moved, total, m, w, k);
    var d := a - (s.hs[k] + s.ws[k]);
    if k == c {
      ShareAdds(moved, 0.0, 0.0, total);
      ThinShare(m, moved, w);
    } else if k in ns && d > 0.0 {
      ShareBounds(moved, d, total);
      ThinShare(m, Share(moved, d, total), w);
    }
  }

  // ----- two steps on two columns and two rows

  /** Whoever gives has less water afterwards. */
  lemma GiverLoses(s: Maps, c: nat, ns: seq<nat>)
    requires Sane(s, |s.hs|) && Around(s.hs, c, ns) && s.ws[c] > 0.0
    ensures FlowCell(s, c, ns).ws[c] <= s.ws[c]
  {
    hide Share, Count, LevelSum, Total, Pour, Ascending, Below;
    var l, a := Levels(s), s.hs[c] + s.ws[c];
    if Count(l, a, ns) >= 1 { MeanDifference(l, a, ns); }
  }

  /** What the first step leaves to the second one. */
  lemma AfterFirst(hs: seq<real>, t: Maps)
    requires Displayable(hs) && |t.hs| == |hs| && Sane(t, |hs|) && Even(t, 0.0099, 1.0099)
    requires forall k :: 0 <= k < |hs| ==> t.hs[k] == hs[k] - 0.0001
    ensures SecondRain(Dissolved(Rained(Evaporated(t))))
    ensures forall k :: 0 <= k < |hs| ==> Dissolved(Rained(Evaporated(t))).ws[k] == 0.5 * t.ws[k] + 0.01
  {
    var e := Evaporated(t);
    var r := Dissolved(Rained(e));
    forall k | 0 <= k < |hs|
      ensures r.ws[k] == 0.5 * t.ws[k] + 0.01 && Second(r.hs[k], r.ws[k], r.ms[k])
    {
      assert Deposit(t.ms[k], t.ws[k]) == 0.0;
      assert r.hs[k] == t.hs[k] - 0.01 * r.ws[k] && r.ms[k] == t.ms[k] + 0.01 * r.ws[k];
    }
  }

  /** Every picture of this size survives two steps. */
  lemma SquareSurvives(n: nat)
    requires n <= 2
    ensures Survives(Size(2, 2), n)
  {
    hide Eroded;
    OneStepSurvives(Size(2, 2), 1);
    forall hs, k: nat | k <= n && |hs| == 4 && Displayable(hs)
      ensures Displayable(Eroded(hs, Size(2, 2), k))
    {
      if k == 2 { SquareTwoSteps(hs); }
    }
  }

  /** The first rain on a picture. */
  lemma FirstRain(hs: seq<real>)
    requires Displayable(hs)
    ensures var s := Dissolved(Rained(Dry(hs)));
            && Even(s, 0.0099, 1.0099) && |s.hs| == |hs|
            && forall k :: 0 <= k < |hs| ==> s.hs[k] == hs[k] - 0.0001 && s.ws[k] == 0.01
  {
    var s := Dissolved(Rained(Dry(hs)));
    forall k | 0 <= k < |hs|
      ensures s.hs[k] == hs[k] - 0.0001 && s.ws[k] == 0.01 && s.ms[k] == 0.0001
    {}
  }

  /** Only the last of the four cells gives. */
  lemma SquareFlow(s: Maps)
    requires Flowing(s, Size(2, 2), 0, 0)
    ensures Sane(s, 4) && Around(s.hs, 3, Beside(Size(2, 2), 1)) && s.ws[3] >= 0.01
    ensures FlowRows(s, Size(2, 2), 2) == FlowCell(s, 3, Beside(Size(2, 2), 1))
  {
    hide FlowRows, FlowCell, Around, Beside;
    NarrowFirst(s, Size(2, 2));
    NarrowNext(s, Size(2, 2), 1);
  }

  lemma SettledOf(s: Maps)
    requires |s.hs| == |s.ws| == |s.ms|
    ensures Settled(Evaporated(s)) == Settled(s)
  {}

  lemma SquareTwoSteps(hs: seq<real>)
    requires |hs| == 4 && Displayable(hs)
    ensures Displayable(Eroded(hs, Size(2, 2), 2))
  {
    hide FlowRows, FlowRow, FlowCell, Stepped, Run, Rained, Dissolved, Evaporated, Even, Around, Beside;
    var g := Size(2, 2);
    DrySane(hs);
    var s0 := Dry(hs);
    var s := Dissolved(Rained(s0));
    RainThenDissolve(s0, g);
    FirstRain(hs);
    SquareFlow(s);
    FlowRowsEven(s, g, 2, 0.0099, 1.0099);
    var t := FlowRows(s, g, 2);
    AfterFirst(hs, t);
    var s2 := Dissolved(Rained(Evaporated(t)));
    EvaporatedSafe(t, 4);
    RainThenDissolve(Evaporated(t), g);
    SquareFlow(s2);
    GiverLoses(s, 3, Beside(g, 1));
    SecondFlow(s2, 3, Beside(g, 1));
    RunTwice(s0, g);
    SettledOf(FlowRows(s2, g, 2));
  }
}
