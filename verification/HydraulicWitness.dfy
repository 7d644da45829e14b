/** Small pictures on which the assertion of erodeHydraulic fails,
    src/modules/erosion/erosion.c:312, step by step in exact numbers. */
module HydraulicWitness {
  import opened Grids
  import opened Sharing
  import opened HydraulicErosion
  import opened HydraulicSurvival

  // ----- flow to one or two cells

  lemma {:induction false} NoneLower(l: seq<real>, a: real, ns: seq<nat>)
    requires Below(ns, |l|) && forall i :: i in ns ==> l[i] >= a
    ensures Count(l, a, ns) == 0 && LevelSum(l, a, ns) == 0.0 && Total(l, a, ns, 0.0) == 0.0
    decreases |ns|
  {
    if ns != [] { NoneLower(l, a, ns[..|ns| - 1]); }
  }

  lemma {:induction false} OneLower(l: seq<real>, c: nat, ns: seq<nat>, k: nat)
    requires Around(l, c, ns) && k in ns && l[k] < l[c] && forall i :: i in ns && i != k ==> l[i] >= l[c]
    ensures Count(l, l[c], ns) == 1 && LevelSum(l, l[c], ns) == l[k] && Total(l, l[c], ns, 0.0) == l[c] - l[k]
    decreases |ns|
  {
    AroundPrefix(l, c, ns);
    var n := |ns| - 1;
    if ns[n] == k {
      NoneLower(l, l[c], ns[..n]);
    } else {
      OneLower(l, c, ns[..n], k);
    }
  }

  lemma {:induction false} TwoLower(l: seq<real>, c: nat, ns: seq<nat>, j: nat, k: nat)
    requires Around(l, c, ns) && j in ns && k in ns && j != k && l[j] < l[c] && l[k] < l[c]
    requires forall i :: i in ns && i != j && i != k ==> l[i] >= l[c]
    ensures Count(l, l[c], ns) == 2 && LevelSum(l, l[c], ns) == l[j] + l[k]
    ensures Total(l, l[c], ns, 0.0) == (l[c] - l[j]) + (l[c] - l[k])
    decreases |ns|
  {
    AroundPrefix(l, c, ns);
    var n := |ns| - 1;
    if ns[n] == j {
      OneLower(l, c, ns[..n], k);
    } else if ns[n] == k {
      OneLower(l, c, ns[..n], j);
    } else {
      TwoLower(l, c, ns[..n], j, k);
    }
  }

  lemma FlowToNone(s: Maps, c: nat, ns: seq<nat>)
    requires Sane(s, |s.hs|) && Around(s.hs, c, ns) && s.ws[c] > 0.0
    requires forall i :: i in ns ==> Levels(s)[i] >= Levels(s)[c]
    ensures FlowCell(s, c, ns) == s
  {
    hide Count, LevelSum, Total, Pour, Ascending;
    NoneLower(Levels(s), Levels(s)[c], ns);
  }

  lemma FlowIs(s: Maps, c: nat, ns: seq<nat>, d: real, moved: real)
    requires Sized(s, |s.hs|) && c < |s.hs| && Below(ns, |s.hs|) && s.ws[c] > 0.0 && Count(Levels(s), Levels(s)[c], ns) >= 1
    requires d == Total(Levels(s), Levels(s)[c], ns, 0.0) && d > 0.0
    requires moved == Min(s.ws[c], Levels(s)[c] - LevelSum(Levels(s), Levels(s)[c], ns) / Count(Levels(s), Levels(s)[c], ns) as real)
    ensures var p := Pour(s, c, ns, Levels(s)[c], moved, d, s.ms[c], s.ws[c]);
            FlowCell(s, c, ns).ws == p.ws[c := s.ws[c] - moved] && FlowCell(s, c, ns).ms == p.ms
  {
    hide Count, LevelSum, Total, Pour, Below;
  }

  /** All that flows goes to cell k. */
  lemma FlowToOne(s: Maps, c: nat, ns: seq<nat>, k: nat, moved: real)
    requires Sane(s, |s.hs|) && Around(s.hs, c, ns) && s.ws[c] > 0.0 && k in ns
    requires Levels(s)[k] < Levels(s)[c] && forall i :: i in ns && i != k ==> Levels(s)[i] >= Levels(s)[c]
    requires moved == Min(s.ws[c], Levels(s)[c] - Levels(s)[k])
    ensures k < |s.hs| && k != c
    ensures FlowCell(s, c, ns).ws == s.ws[k := s.ws[k] + moved][c := s.ws[c] - moved]
    ensures var x := Share(s.ms[c], moved, s.ws[c]);
            FlowCell(s, c, ns).ms == s.ms[k := s.ms[k] + x][c := s.ms[c] - x]
  {
    hide Count, LevelSum, Total, Pour, Ascending, Share, FlowCell;
    var l, a, w, m := Levels(s), Levels(s)[c], s.ws[c], s.ms[c];
    OneLower(l, c, ns, k);
    AroundNotSelf(s.hs, c, ns);
    var d := a - l[k];
    FlowIs(s, c, ns, d, moved);
    ShareAdds(moved, 0.0, 0.0, d);
    var x, p := Share(m, moved, w), Pour(s, c, ns, a, moved, d, m, w);
    forall i: nat | i < |s.hs|
      ensures i != c ==> p.ws[i] == s.ws[k := s.ws[k] + moved][i]
      ensures p.ms[i] == s.ms[k := s.ms[k] + x][c := m - x][i]
    {
      PourAt(s, c, ns, a, moved, d, m, w, i);
      if i != c && i != k { assert i in ns ==> a - l[i] <= 0.0; }
    }
    assert p.ws[c := w - moved] == s.ws[k := s.ws[k] + moved][c := w - moved];
    assert p.ms == s.ms[k := s.ms[k] + x][c := m - x];
  }

  /** Half of what flows goes to each of two equally low cells. */
  lemma FlowToTwo(s: Maps, c: nat, ns: seq<nat>, j: nat, k: nat, moved: real)
    requires Sane(s, |s.hs|) && Around(s.hs, c, ns) && s.ws[c] > 0.0 && j in ns && k in ns && j != k
    requires Levels(s)[j] == Levels(s)[k] < Levels(s)[c]
    requires forall i :: i in ns && i != j && i != k ==> Levels(s)[i] >= Levels(s)[c]
    requires moved == Min(s.ws[c], Levels(s)[c] - Levels(s)[k])
    ensures j < |s.hs| && k < |s.hs| && j != c && k != c
    ensures FlowCell(s, c, ns).ws == s.ws[j := s.ws[j] + moved / 2.0][k := s.ws[k] + moved / 2.0][c := s.ws[c] - moved]
    ensures var x := Share(s.ms[c], moved / 2.0, s.ws[c]);
            FlowCell(s, c, ns).ms == s.ms[j := s.ms[j] + x][k := s.ms[k] + x][c := s.ms[c] - Share(s.ms[c], moved, s.ws[c])]
  {
    hide Count, LevelSum, Total, Pour, Ascending, Share, FlowCell;
    var l, a, w, m := Levels(s), Levels(s)[c], s.ws[c], s.ms[c];
    TwoLower(l, c, ns, j, k);
    AroundNotSelf(s.hs, c, ns);
    var d := a - l[k];
    assert (l[j] + l[k]) / 2.0 == l[k];
    FlowIs(s, c, ns, d + d, moved);
    ShareAdds(moved, 0.0, 0.0, d + d);
    HalfShare(moved, d);
    var x, y, p := Share(m, moved / 2.0, w), Share(m, moved, w), Pour(s, c, ns, a, moved, d + d, m, w);
    forall i: nat | i < |s.hs|
      ensures i != c ==> p.ws[i] == s.ws[j := s.ws[j] + moved / 2.0][k := s.ws[k] + moved / 2.0][i]
      ensures p.ms[i] == s.ms[j := s.ms[j] + x][k := s.ms[k] + x][c := m - y][i]
    {
      PourAt(s, c, ns, a, moved, d + d, m, w, i);
      if i != c && i != j && i != k { assert i in ns ==> a - l[i] <= 0.0; }
    }
    assert p.ws[c := w - moved] == s.ws[j := s.ws[j] + moved / 2.0][k := s.ws[k] + moved / 2.0][c := w - moved];
    assert p.ms == s.ms[j := s.ms[j] + x][k := s.ms[k] + x][c := m - y];
  }

  lemma HalfShare(moved: real, d: real)
    requires d > 0.0
    ensures Share(moved, d, d + d) == moved / 2.0
  {
    assert moved / 2.0 * (d + d) == moved * d;
  }

  // ----- a grid of two columns

  /** Only the cells of the second column give, each to the cells around it. */
  function Beside(g: Size, y: nat): seq<nat>
    requires y > 0
  {
    [2 * y - 2, 2 * y - 1, 2 * y] + if y + 1 < g.height then [2 * y + 2, 2 * y + 3] else []
  }

  lemma NarrowStencil(g: Size, y: nat)
    requires g.Fits() && g.width == 2 && 1 <= y < g.height < UINT_RANGE - 1
    ensures Stencil(g, 1, y) == Beside(g, y)
  {
    var top := y - 1;
    NarrowRow(g, y, top);
    NarrowRow(g, y, y);
    assert Low(1) == 0 && High(1, 2) == 2 && Low(y) == top;
    assert Rows(g, 1, y, top, top, 0, 2) == [];
    assert Rows(g, 1, y, top, y, 0, 2) == Row(g, 1, y, top, 0, 2);
    assert Rows(g, 1, y, top, y + 1, 0, 2) == Row(g, 1, y, top, 0, 2) + Row(g, 1, y, y, 0, 2);
    if y + 1 < g.height {
      assert High(y, g.height) == y + 2;
      NarrowRow(g, y, y + 1);
      assert Rows(g, 1, y, top, y + 2, 0, 2) == Rows(g, 1, y, top, y + 1, 0, 2) + Row(g, 1, y, y + 1, 0, 2);
    } else {
      assert High(y, g.height) == y + 1;
    }
  }

  lemma NarrowRow(g: Size, y: nat, i: nat)
    requires g.width == 2
    ensures Row(g, 1, y, i, 0, 2) == if i == y then [2 * i] else [2 * i, 2 * i + 1]
  {
    assert Row(g, 1, y, i, 0, 0) == [];
    assert Row(g, 1, y, i, 0, 1) == [Index(g, 0, i)];
  }

  lemma NarrowFirst(s: Maps, g: Size)
    requires Flowing(s, g, 0, 0) && g.width == 2 && g.height >= 1
    ensures FlowRows(s, g, 1) == s
  {
    hide FlowRow, Flowing;
    NextRow(g, 0);
    FlatRow(s, g, 2, 0);
    assert FlowRows(s, g, 0) == s;
  }

  lemma NarrowNext(s: Maps, g: Size, y: nat)
    requires Flowing(s, g, 0, 0) && g.width == 2 && 1 <= y < g.height < UINT_RANGE - 1
    ensures var t := FlowRows(s, g, y);
            Sane(t, 2 * g.height) && Around(t.hs, 2 * y + 1, Beside(g, y)) && t.ws[2 * y + 1] > 0.0
            && t.hs == s.hs && FlowRows(s, g, y + 1) == FlowCell(t, 2 * y + 1, Beside(g, y))
  {
    hide FlowCell, FlowRow, Stencil, Beside;
    var t := FlowRows(s, g, y);
    NextRow(g, y);
    NarrowStencil(g, y);
    NarrowFlow(t, g, y);
    StencilAscending(g, 1, y);
  }

  lemma NarrowFlow(t: Maps, g: Size, y: nat)
    requires Flowing(t, g, 0, y) && g.width == 2 && 1 <= y < g.height
    ensures 2 * y + 1 < g.Cells() && t.ws[2 * y + 1] > 0.0 && Below(Stencil(g, 1, y), g.Cells())
    ensures FlowRow(t, g, 2, y) == FlowCell(t, 2 * y + 1, Stencil(g, 1, y))
  {
    hide FlowCell, Stencil;
    BorderFlow(t, g, 0, y);
    FlowAtSafe(t, g, 1, y);
    assert FlowRow(t, g, 0, y) == t;
    assert FlowRow(t, g, 1, y) == t;
    assert FlowRow(t, g, 2, y) == FlowAt(t, g, 1, y);
  }

  // ----- two steps on two columns and four rows

  /** Written row by row. */
  function Pit(): seq<real> {
    [0.0, 0.0, 0.01, 0.0, 0.01, 0.01, 0.01, 0.0]
  }

  function PitRain1(): Maps {
    Maps([-0.0001, -0.0001, 0.0099, -0.0001, 0.0099, 0.0099, 0.0099, -0.0001],
         [0.01, 0.01, 0.01, 0.01, 0.01, 0.01, 0.01, 0.01],
         [0.0001, 0.0001, 0.0001, 0.0001, 0.0001, 0.0001, 0.0001, 0.0001])
  }

  function PitFlow12(): Maps {
    Maps([-0.0001, -0.0001, 0.0099, -0.0001, 0.0099, 0.0099, 0.0099, -0.0001],
         [0.01, 0.01, 0.01, 0.015, 0.01, 0.0, 0.01, 0.015],
         [0.0001, 0.0001, 0.0001, 0.00015, 0.0001, 0.0, 0.0001, 0.00015])
  }

  lemma PitFlows12()
    requires Around(PitRain1().hs, 5, Beside(Size(2, 4), 2))
    ensures FlowCell(PitRain1(), 5, Beside(Size(2, 4), 2)) == PitFlow12()
  {
    hide FlowCell;
    FlowToTwo(PitRain1(), 5, Beside(Size(2, 4), 2), 3, 7, 0.01);
  }

  function PitFlow13(): Maps {
    Maps([-0.0001, -0.0001, 0.0099, -0.0001, 0.0099, 0.0099, 0.0099, -0.0001],
         [0.01, 0.01, 0.01, 0.015, 0.01, 0.005, 0.01, 0.01],
         [0.0001, 0.0001, 0.0001, 0.00015, 0.0001, 0.00005, 0.0001, 0.0001])
  }

  lemma PitFlows13()
    requires Around(PitFlow12().hs, 7, Beside(Size(2, 4), 3))
    ensures FlowCell(PitFlow12(), 7, Beside(Size(2, 4), 3)) == PitFlow13()
  {
    hide FlowCell;
    FlowToOne(PitFlow12(), 7, Beside(Size(2, 4), 3), 5, 0.005);
  }

  function PitAfter1(): Maps {
    Maps([-0.0001, -0.0001, 0.0099, -0.0001, 0.0099, 0.0099, 0.0099, -0.0001],
         [0.005, 0.005, 0.005, 0.0075, 0.005, 0.0025, 0.005, 0.005],
         [0.0001, 0.0001, 0.0001, 0.00015, 0.0001, 0.00005, 0.0001, 0.0001])
  }

  lemma PitDissolves1()
    ensures Sane(Dry(Pit()), 8) && Dissolved(Rained(Dry(Pit()))) == PitRain1()
  {}

  lemma PitEvaporates1()
    ensures Evaporated(PitFlow13()) == PitAfter1()
  {}

  lemma PitStep1()
    ensures Sane(Dry(Pit()), 8) && Stepped(Dry(Pit()), Size(2, 4)) == PitAfter1()
  {
    hide FlowRows, FlowRow, FlowCell, Stepped, Around;
    var g, s := Size(2, 4), PitRain1();
    PitDissolves1();
    RainThenDissolve(Dry(Pit()), g);
    NarrowFirst(s, g);
    NarrowNext(s, g, 1);
    FlowToNone(PitRain1(), 3, Beside(g, 1));
    NarrowNext(s, g, 2);
    PitFlows12();
    NarrowNext(s, g, 3);
    PitFlows13();
    PitEvaporates1();
  }

  function PitRain2(): Maps {
    Maps([-0.00025, -0.00025, 0.00975, -0.000275, 0.00975, 0.009775, 0.00975, -0.00025],
         [0.015, 0.015, 0.015, 0.0175, 0.015, 0.0125, 0.015, 0.015],
         [0.00025, 0.00025, 0.00025, 0.000325, 0.00025, 0.000175, 0.00025, 0.00025])
  }

  function PitFlow21(): Maps {
    Maps([-0.00025, -0.00025, 0.00975, -0.000275, 0.00975, 0.009775, 0.00975, -0.00025],
         [0.0162375, 0.0162375, 0.015, 0.015025, 0.015, 0.0125, 0.015, 0.015],
         [15287.0 / 56000000.0, 15287.0 / 56000000.0, 0.00025, 7813.0 / 28000000.0, 0.00025, 0.000175, 0.00025, 0.00025])
  }

  lemma PitFlows21()
    requires Around(PitRain2().hs, 3, Beside(Size(2, 4), 1))
    ensures FlowCell(PitRain2(), 3, Beside(Size(2, 4), 1)) == PitFlow21()
  {
    hide FlowCell;
    FlowToTwo(PitRain2(), 3, Beside(Size(2, 4), 1), 0, 1, 0.002475);
  }

  function PitFlow22(): Maps {
    Maps([-0.00025, -0.00025, 0.00975, -0.000275, 0.00975, 0.009775, 0.00975, -0.00025],
         [0.0162375, 0.0162375, 0.015, 0.0187875, 0.015, 0.004975, 0.015, 0.0187625],
         [15287.0 / 56000000.0, 15287.0 / 56000000.0, 0.00025, 92879.0 / 280000000.0, 0.00025, 0.00006965, 0.00025, 0.000302675])
  }

  lemma PitFlows22()
    requires Around(PitFlow21().hs, 5, Beside(Size(2, 4), 2))
    ensures FlowCell(PitFlow21(), 5, Beside(Size(2, 4), 2)) == PitFlow22()
  {
    hide FlowCell;
    FlowToTwo(PitFlow21(), 5, Beside(Size(2, 4), 2), 3, 7, 0.007525);
  }

  function PitFlow23(): Maps {
    Maps([-0.00025, -0.00025, 0.00975, -0.000275, 0.00975, 0.009775, 0.00975, -0.00025],
         [0.0162375, 0.0162375, 0.015, 0.0187875, 0.015, 0.0087375, 0.015, 0.015],
         [15287.0 / 56000000.0, 15287.0 / 56000000.0, 0.00025, 92879.0 / 280000000.0, 0.00025, 7825993.0 / 60040000000.0, 0.00025, 36321.0 / 150100000.0])
  }

  lemma PitFlows23()
    requires Around(PitFlow22().hs, 7, Beside(Size(2, 4), 3))
    ensures FlowCell(PitFlow22(), 7, Beside(Size(2, 4), 3)) == PitFlow23()
  {
    hide FlowCell;
    FlowToOne(PitFlow22(), 7, Beside(Size(2, 4), 3), 5, 0.0037625);
  }

  function PitAfter2(): Maps {
    Maps([-0.00025, -0.00025, 0.00975, -0.000275, 0.00975, 0.009775, 0.00975, -0.00025],
         [0.00811875, 0.00811875, 0.0075, 0.00939375, 0.0075, 0.00436875, 0.0075, 0.0075],
         [15287.0 / 56000000.0, 15287.0 / 56000000.0, 0.00025, 92879.0 / 280000000.0, 0.00025, 7825993.0 / 60040000000.0, 0.00025, 36321.0 / 150100000.0])
  }

  lemma PitDissolves2()
    ensures Sane(PitAfter1(), 8) && Dissolved(Rained(PitAfter1())) == PitRain2()
  {}

  lemma PitEvaporates2()
    ensures Evaporated(PitFlow23()) == PitAfter2()
  {}

  lemma PitStep2()
    ensures Sane(PitAfter1(), 8) && Stepped(PitAfter1(), Size(2, 4)) == PitAfter2()
  {
    hide FlowRows, FlowRow, FlowCell, Stepped, Around;
    var g, s := Size(2, 4), PitRain2();
    PitDissolves2();
    RainThenDissolve(PitAfter1(), g);
    NarrowFirst(s, g);
    NarrowNext(s, g, 1);
    PitFlows21();
    NarrowNext(s, g, 2);
    PitFlows22();
    NarrowNext(s, g, 3);
    PitFlows23();
    PitEvaporates2();
  }

  // ----- three steps on two columns and three rows

  function Trench(): seq<real> {
    [0.05, 0.05, 0.02, 0.02, 1.0, 0.0]
  }

  function TrenchRain1(): Maps {
    Maps([0.0499, 0.0499, 0.0199, 0.0199, 0.9999, -0.0001],
         [0.01, 0.01, 0.01, 0.01, 0.01, 0.01],
         [0.0001, 0.0001, 0.0001, 0.0001, 0.0001, 0.0001])
  }

  function TrenchFlow11(): Maps {
    Maps([0.0499, 0.0499, 0.0199, 0.0199, 0.9999, -0.0001],
         [0.01, 0.01, 0.01, 0.0, 0.01, 0.02],
         [0.0001, 0.0001, 0.0001, 0.0, 0.0001, 0.0002])
  }

  lemma TrenchFlows11()
    requires Around(TrenchRain1().hs, 3, Beside(Size(2, 3), 1))
    ensures FlowCell(TrenchRain1(), 3, Beside(Size(2, 3), 1)) == TrenchFlow11()
  {
    hide FlowCell;
    FlowToOne(TrenchRain1(), 3, Beside(Size(2, 3), 1), 5, 0.01);
  }

  function TrenchAfter1(): Maps {
    Maps([0.0499, 0.0499, 0.0199, 0.0199, 0.9999, -0.0001],
         [0.005, 0.005, 0.005, 0.0, 0.005, 0.01],
         [0.0001, 0.0001, 0.0001, 0.0, 0.0001, 0.0002])
  }

  lemma TrenchDissolves1()
    ensures Sane(Dry(Trench()), 6) && Dissolved(Rained(Dry(Trench()))) == TrenchRain1()
  {}

  lemma TrenchEvaporates1()
    ensures Evaporated(TrenchFlow11()) == TrenchAfter1()
  {}

  lemma TrenchStep1()
    ensures Sane(Dry(Trench()), 6) && Stepped(Dry(Trench()), Size(2, 3)) == TrenchAfter1()
  {
    hide FlowRows, FlowRow, FlowCell, Stepped, Around;
    var g, s := Size(2, 3), TrenchRain1();
    TrenchDissolves1();
    RainThenDissolve(Dry(Trench()), g);
    NarrowFirst(s, g);
    NarrowNext(s, g, 1);
    TrenchFlows11();
    NarrowNext(s, g, 2);
    FlowToNone(TrenchFlow11(), 5, Beside(g, 2));
    TrenchEvaporates1();
  }

  function TrenchRain2(): Maps {
    Maps([0.04975, 0.04975, 0.01975, 0.0198, 0.99975, -0.0003],
         [0.015, 0.015, 0.015, 0.01, 0.015, 0.02],
         [0.00025, 0.00025, 0.00025, 0.0001, 0.00025, 0.0004])
  }

  function TrenchFlow21(): Maps {
    Maps([0.04975, 0.04975, 0.01975, 0.0198, 0.99975, -0.0003],
         [0.015, 0.015, 0.015, 0.0, 0.015, 0.03],
         [0.00025, 0.00025, 0.00025, 0.0, 0.00025, 0.0005])
  }

  lemma TrenchFlows21()
    requires Around(TrenchRain2().hs, 3, Beside(Size(2, 3), 1))
    ensures FlowCell(TrenchRain2(), 3, Beside(Size(2, 3), 1)) == TrenchFlow21()
  {
    hide FlowCell;
    FlowToOne(TrenchRain2(), 3, Beside(Size(2, 3), 1), 5, 0.01);
  }

  function TrenchFlow22(): Maps {
    Maps([0.04975, 0.04975, 0.01975, 0.0198, 0.99975, -0.0003],
         [0.015, 0.015, 0.015, 0.0099, 0.015, 0.0201],
         [0.00025, 0.00025, 0.00025, 0.000165, 0.00025, 0.000335])
  }

  lemma TrenchFlows22()
    requires Around(TrenchFlow21().hs, 5, Beside(Size(2, 3), 2))
    ensures FlowCell(TrenchFlow21(), 5, Beside(Size(2, 3), 2)) == TrenchFlow22()
  {
    hide FlowCell;
    FlowToOne(TrenchFlow21(), 5, Beside(Size(2, 3), 2), 3, 0.0099);
  }

  function TrenchAfter2(): Maps {
    Maps([0.04975, 0.04975, 0.01975, 0.0198, 0.99975, -0.0003],
         [0.0075, 0.0075, 0.0075, 0.00495, 0.0075, 0.01005],
         [0.00025, 0.00025, 0.00025, 0.000165, 0.00025, 0.000335])
  }

  lemma TrenchDissolves2()
    ensures Sane(TrenchAfter1(), 6) && Dissolved(Rained(TrenchAfter1())) == TrenchRain2()
  {}

  lemma TrenchEvaporates2()
    ensures Evaporated(TrenchFlow22()) == TrenchAfter2()
  {}

  lemma TrenchStep2()
    ensures Sane(TrenchAfter1(), 6) && Stepped(TrenchAfter1(), Size(2, 3)) == TrenchAfter2()
  {
    hide FlowRows, FlowRow, FlowCell, Stepped, Around;
    var g, s := Size(2, 3), TrenchRain2();
    TrenchDissolves2();
    RainThenDissolve(TrenchAfter1(), g);
    NarrowFirst(s, g);
    NarrowNext(s, g, 1);
    TrenchFlows21();
    NarrowNext(s, g, 2);
    TrenchFlows22();
    TrenchEvaporates2();
  }

  function TrenchRain3(): Maps {
    Maps([0.049575, 0.049575, 0.019575, 0.0196505, 0.999575, -0.0005005],
         [0.0175, 0.0175, 0.0175, 0.01495, 0.0175, 0.02005],
         [0.000425, 0.000425, 0.000425, 0.0003145, 0.000425, 0.0005355])
  }

  function TrenchFlow31(): Maps {
    Maps([0.049575, 0.049575, 0.019575, 0.0196505, 0.999575, -0.0005005],
         [0.0175, 0.0175, 0.0175, 0.0, 0.0175, 0.035],
         [0.000425, 0.000425, 0.000425, 0.0, 0.000425, 0.00085])
  }

  lemma TrenchFlows31()
    requires Around(TrenchRain3().hs, 3, Beside(Size(2, 3), 1))
    ensures FlowCell(TrenchRain3(), 3, Beside(Size(2, 3), 1)) == TrenchFlow31()
  {
    hide FlowCell;
    FlowToOne(TrenchRain3(), 3, Beside(Size(2, 3), 1), 5, 0.01495);
  }

  function TrenchFlow32(): Maps {
    Maps([0.049575, 0.049575, 0.019575, 0.0196505, 0.999575, -0.0005005],
         [0.0175, 0.0175, 0.0175, 0.014849, 0.0175, 0.020151],
         [0.000425, 0.000425, 0.000425, 252433.0 / 700000000.0, 0.000425, 342567.0 / 700000000.0])
  }

  lemma TrenchFlows32()
    requires Around(TrenchFlow31().hs, 5, Beside(Size(2, 3), 2))
    ensures FlowCell(TrenchFlow31(), 5, Beside(Size(2, 3), 2)) == TrenchFlow32()
  {
    hide FlowCell;
    FlowToOne(TrenchFlow31(), 5, Beside(Size(2, 3), 2), 3, 0.014849);
  }

  function TrenchAfter3(): Maps {
    Maps([0.049575, 0.049575, 0.019575, 0.0196505, 0.999575, -0.0005005],
         [0.00875, 0.00875, 0.00875, 0.0074245, 0.00875, 0.0100755],
         [0.000425, 0.000425, 0.000425, 252433.0 / 700000000.0, 0.000425, 342567.0 / 700000000.0])
  }

  lemma TrenchDissolves3()
    ensures Sane(TrenchAfter2(), 6) && Dissolved(Rained(TrenchAfter2())) == TrenchRain3()
  {}

  lemma TrenchEvaporates3()
    ensures Evaporated(TrenchFlow32()) == TrenchAfter3()
  {}

  lemma TrenchStep3()
    ensures Sane(TrenchAfter2(), 6) && Stepped(TrenchAfter2(), Size(2, 3)) == TrenchAfter3()
  {
    hide FlowRows, FlowRow, FlowCell, Stepped, Around;
    var g, s := Size(2, 3), TrenchRain3();
    TrenchDissolves3();
    RainThenDissolve(TrenchAfter2(), g);
    NarrowFirst(s, g);
    NarrowNext(s, g, 1);
    TrenchFlows31();
    NarrowNext(s, g, 2);
    TrenchFlows32();
    TrenchEvaporates3();
  }

  // ----- three steps are too many

  lemma RunTwice(s: Maps, g: Size)
    requires g.Fits() && Sane(s, g.Cells())
    ensures Run(s, g, 2) == Stepped(Stepped(s, g), g)
  {
    hide Stepped;
    assert Run(s, g, 0) == s && Run(s, g, 1) == Stepped(Run(s, g, 0), g);
  }

  /** The last cell of this picture ends below 0 after three steps. */
  lemma TrenchFails()
    ensures Size(2, 3).Fits() && |Trench()| == Size(2, 3).Cells() && Displayable(Trench())
    ensures Eroded(Trench(), Size(2, 3), 3)[5] == -7783.0 / 700000000.0 < 0.0
  {
    hide Stepped, Run;
    var s, g := Dry(Trench()), Size(2, 3);
    TrenchStep1();
    TrenchStep2();
    TrenchStep3();
    RunTwice(s, g);
    RunThrice(s, g);
  }

  lemma RunThrice(s: Maps, g: Size)
    requires g.Fits() && Sane(s, g.Cells())
    ensures Run(s, g, 3) == Stepped(Run(s, g, 2), g)
  {
    hide Stepped;
  }

  // ----- any number of rows above the pit

  function Join(u: Maps, s: Maps): Maps {
    Maps(u.hs + s.hs, u.ws + s.ws, u.ms + s.ms)
  }

  function Shifted(ns: seq<nat>, e: nat): (r: seq<nat>)
    ensures |r| == |ns| && forall k :: 0 <= k < |r| ==> r[k] == e + ns[k]
  {
    seq(|ns|, k requires 0 <= k < |ns| => e + ns[k])
  }

  lemma ShiftedPrefix(ns: seq<nat>, e: nat)
    requires ns != []
    ensures Shifted(ns, e)[..|ns| - 1] == Shifted(ns[..|ns| - 1], e) && Shifted(ns, e)[|ns| - 1] == e + ns[|ns| - 1]
  {}

  lemma {:induction false} ShiftedLower(u: seq<real>, l: seq<real>, a: real, ns: seq<nat>)
    requires Below(ns, |l|)
    ensures Below(Shifted(ns, |u|), |u + l|)
    ensures Count(u + l, a, Shifted(ns, |u|)) == Count(l, a, ns)
    ensures LevelSum(u + l, a, Shifted(ns, |u|)) == LevelSum(l, a, ns)
    ensures Total(u + l, a, Shifted(ns, |u|), 0.0) == Total(l, a, ns, 0.0)
    decreases |ns|
  {
    if ns != [] {
      ShiftedPrefix(ns, |u|);
      ShiftedLower(u, l, a, ns[..|ns| - 1]);
    }
  }

  lemma {:induction false} ShiftedPour(u: Maps, s: Maps, c: nat, ns: seq<nat>, a: real, moved: real, total: real,
                                       m: real, w: real)
    requires Sized(u, |u.hs|) && Sized(s, |s.hs|) && c < |s.hs| && Below(ns, |s.hs|) && total != 0.0 && w != 0.0
    ensures Below(Shifted(ns, |u.hs|), |u.hs + s.hs|)
    ensures Pour(Join(u, s), |u.hs| + c, Shifted(ns, |u.hs|), a, moved, total, m, w) ==
            Join(u, Pour(s, c, ns, a, moved, total, m, w))
    decreases |ns|
  {
    hide Share, PourOne;
    if ns != [] {
      ShiftedPrefix(ns, |u.hs|);
      ShiftedPour(u, s, c, ns[..|ns| - 1], a, moved, total, m, w);
      var r := Pour(s, c, ns[..|ns| - 1], a, moved, total, m, w);
      ShiftedPourOne(u, r, c, ns[|ns| - 1], a, moved, total, m, w);
    }
  }

  lemma ShiftedPourOne(u: Maps, r: Maps, c: nat, k: nat, a: real, moved: real, total: real, m: real, w: real)
    requires Sized(u, |u.hs|) && Sized(r, |r.hs|) && c < |r.hs| && k < |r.hs| && total != 0.0 && w != 0.0
    ensures PourOne(Join(u, r), |u.hs| + c, |u.hs| + k, a, moved, total, m, w) ==
            Join(u, PourOne(r, c, k, a, moved, total, m, w))
  {
    hide Share;
  }

  lemma ShiftedFlow(u: Maps, s: Maps, c: nat, ns: seq<nat>)
    requires Sized(u, |u.hs|) && Sized(s, |s.hs|) && c < |s.hs| && Below(ns, |s.hs|) && s.ws[c] > 0.0
    ensures Below(Shifted(ns, |u.hs|), |u.hs + s.hs|)
    ensures FlowCell(Join(u, s), |u.hs| + c, Shifted(ns, |u.hs|)) == Join(u, FlowCell(s, c, ns))
  {
    hide Count, LevelSum, Total, Pour, Below, Shifted;
    var l, a, w := Levels(s), s.hs[c] + s.ws[c], s.ws[c];
    assert Levels(Join(u, s)) == Levels(u) + l;
    ShiftedLower(Levels(u), l, a, ns);
    CountTotal(l, a, ns);
    var count, total := Count(l, a, ns), Total(l, a, ns, 0.0);
    if count >= 1 {
      ShiftedPour(u, s, c, ns, a, Min(w, a - LevelSum(l, a, ns) / count as real), total, s.ms[c], w);
    }
  }

  lemma ShiftedBeside(g: Size, e: nat, y: nat)
    requires y > 0
    ensures Beside(Size(g.width, e + g.height), e + y) == Shifted(Beside(g, y), 2 * e)
  {}

  /** Rows that are all alike. */
  function Plain(e: nat, h: real, w: real, m: real): (r: Maps)
    ensures Sized(r, 2 * e) && forall k :: 0 <= k < 2 * e ==> r.hs[k] == h && r.ws[k] == w && r.ms[k] == m
  {
    Maps(seq(2 * e, _ => h), seq(2 * e, _ => w), seq(2 * e, _ => m))
  }

  /** The first row of s is like the rows above it, and the next one is not
      lower. */
  ghost predicate Continues(s: Maps, h: real, w: real) {
    && |s.hs| == |s.ws| == |s.ms| >= 4
    && s.hs[0] + s.ws[0] == h + w && s.hs[1] + s.ws[1] == h + w
    && s.hs[2] + s.ws[2] >= h + w && s.hs[3] + s.ws[3] >= h + w
  }

  /** What flows in a taller grid. */
  ghost predicate Taller(s: Maps, g: Size, e: nat, h: real, w: real, m: real) {
    && g.width == 2 && g.height >= 2 && e + g.height < UINT_RANGE - 1 && Continues(s, h, w)
    && Flowing(s, g, 0, 0) && Flowing(Join(Plain(e, h, w, m), s), Size(2, e + g.height), 0, 0)
  }

  lemma {:induction false} PlainRows(s: Maps, g: Size, e: nat, h: real, w: real, m: real, y: nat)
    requires Taller(s, g, e, h, w, m) && 1 <= y <= e + 1
    ensures FlowRows(Join(Plain(e, h, w, m), s), Size(2, e + g.height), y) == Join(Plain(e, h, w, m), s)
    decreases y
  {
    hide FlowRow, FlowRows, FlowCell, Plain;
    var t, tall := Join(Plain(e, h, w, m), s), Size(2, e + g.height);
    if y == 1 {
      NarrowFirst(t, tall);
    } else {
      PlainRows(s, g, e, h, w, m, y - 1);
      NarrowNext(t, tall, y - 1);
      FlowToNone(t, 2 * y - 1, Beside(tall, y - 1));
    }
  }

  lemma {:induction false} TallRows(s: Maps, g: Size, e: nat, h: real, w: real, m: real, y: nat)
    requires Taller(s, g, e, h, w, m) && 1 <= y <= g.height
    ensures FlowRows(Join(Plain(e, h, w, m), s), Size(2, e + g.height), e + y) ==
            Join(Plain(e, h, w, m), FlowRows(s, g, y))
    decreases y
  {
    hide FlowRow, FlowRows, FlowCell, Plain, Beside, Around, Flowing;
    var u, tall := Plain(e, h, w, m), Size(2, e + g.height);
    if y == 1 {
      PlainRows(s, g, e, h, w, m, e + 1);
      NarrowFirst(s, g);
    } else {
      TallRows(s, g, e, h, w, m, y - 1);
      NarrowNext(Join(u, s), tall, e + y - 1);
      NarrowNext(s, g, y - 1);
      ShiftedBeside(g, e, y - 1);
      BesideBelow(FlowRows(s, g, y - 1).hs, 2 * y - 1, Beside(g, y - 1));
      ShiftedFlow(u, FlowRows(s, g, y - 1), 2 * y - 1, Beside(g, y - 1));
    }
  }

  lemma BesideBelow(s: seq<real>, c: nat, ns: seq<nat>)
    requires Around(s, c, ns)
    ensures c < |s| && Below(ns, |s|)
  {}

  lemma PlainDissolves(s: Maps, e: nat, h: real, w: real, m: real)
    requires Sized(s, |s.hs|)
    ensures Dissolved(Rained(Join(Plain(e, h, w, m), s))) ==
            Join(Plain(e, h - K_SOLUBILITY * (w + K_RAIN), w + K_RAIN, m + K_SOLUBILITY * (w + K_RAIN)),
                 Dissolved(Rained(s)))
  {
    hide Plain;
  }

  lemma PlainEvaporates(t: Maps, e: nat, h: real, w: real, m: real)
    requires Sized(t, |t.hs|) && m <= K_CAPACITY * (w * (1.0 - K_EVAPORATION))
    ensures Evaporated(Join(Plain(e, h, w, m), t)) == Join(Plain(e, h, w / 2.0, m), Evaporated(t))
  {
    hide Plain;
  }

  lemma PlainSane(s: Maps, g: Size, e: nat, h: real, w: real, m: real)
    requires g.width == 2 && e + g.height < UINT_RANGE && Sane(s, g.Cells()) && w >= 0.0 && m >= 0.0
    ensures Size(2, e + g.height).Fits() && Sane(Join(Plain(e, h, w, m), s), Size(2, e + g.height).Cells())
  {
    hide Plain;
  }

  /** One step of a picture with rows above it. */
  lemma TallStep(s: Maps, g: Size, e: nat, h: real, w: real, m: real)
    requires g.width == 2 && g.height >= 2 && e + g.height < UINT_RANGE - 1
    requires Sane(s, g.Cells()) && w >= 0.0 && m >= 0.0
    requires Continues(Dissolved(Rained(s)), h - K_SOLUBILITY * (w + K_RAIN), w + K_RAIN)
    requires m + K_SOLUBILITY * (w + K_RAIN) <= K_CAPACITY * ((w + K_RAIN) * (1.0 - K_EVAPORATION))
    ensures Size(2, e + g.height).Fits() && Sane(Join(Plain(e, h, w, m), s), Size(2, e + g.height).Cells())
    ensures Stepped(Join(Plain(e, h, w, m), s), Size(2, e + g.height)) ==
            Join(Plain(e, h - K_SOLUBILITY * (w + K_RAIN), (w + K_RAIN) / 2.0, m + K_SOLUBILITY * (w + K_RAIN)),
                 Stepped(s, g))
  {
    hide FlowRows, Continues, Stepped, Dissolved, Rained, Evaporated, Plain, Join, Flowing;
    var u, tall := Plain(e, h, w, m), Size(2, e + g.height);
    PlainSane(s, g, e, h, w, m);
    RainThenDissolve(s, g);
    RainThenDissolve(Join(u, s), tall);
    var h1, w1, m1 := h - K_SOLUBILITY * (w + K_RAIN), w + K_RAIN, m + K_SOLUBILITY * (w + K_RAIN);
    var s1 := Dissolved(Rained(s));
    PlainDissolves(s, e, h, w, m);
    TallRows(s1, g, e, h1, w1, m1, g.height);
    FlowedSized(s1, g);
    PlainEvaporates(FlowRows(s1, g, g.height), e, h1, w1, m1);
  }

  lemma FlowedSized(s: Maps, g: Size)
    requires Flowing(s, g, 0, 0)
    ensures Sized(FlowRows(s, g, g.height), |FlowRows(s, g, g.height).hs|)
  {
    hide FlowRows;
  }

  /** The pit at the lower end of any number of flat rows: after two steps the
      last cell ends below 0. */
  function Shaft(e: nat): (r: seq<real>)
    ensures |r| == 2 * e + 8 && Dry(r) == Join(Plain(e, 0.0, 0.0, 0.0), Dry(Pit()))
    ensures Displayable(r)
  {
    Plain(e, 0.0, 0.0, 0.0).hs + Pit()
  }

  lemma ShaftFails(e: nat, g: Size)
    requires g == Size(2, e + 4) && e + 4 < UINT_RANGE - 1
    ensures g.Fits() && |Shaft(e)| == g.Cells() && Eroded(Shaft(e), g, 2)[2 * e + 7] == -301.0 / 37525000.0
  {
    hide Stepped, Run, Plain, Pit;
    var s := Dry(Shaft(e));
    PitStep1();
    PitStep2();
    PitContinues();
    TallStep(Dry(Pit()), Size(2, 4), e, 0.0, 0.0, 0.0);
    TallStep(PitAfter1(), Size(2, 4), e, -0.0001, 0.005, 0.0001);
    RunTwice(s, g);
  }

  lemma PitContinues()
    ensures Continues(Dissolved(Rained(Dry(Pit()))), -0.0001, 0.01)
    ensures Sized(PitAfter1(), 8) && Continues(Dissolved(Rained(PitAfter1())), -0.00025, 0.015)
  {
    PitDissolves1();
    PitDissolves2();
  }

  /** With two columns and at least four rows, two steps are too many. */
  lemma NarrowExactly(g: Size, n: nat)
    requires g.width == 2 && 4 <= g.height < UINT_RANGE - 1
    ensures g.Fits() && (Survives(g, n) <==> n <= 1)
  {
    hide Eroded, Shaft;
    if n <= 1 {
      OneStepSurvives(g, n);
    } else {
      ShaftFails(g.height - 4, g);
      assert !Displayable(Eroded(Shaft(g.height - 4), g, 2));
    }
  }

  /** Every picture of every size survives up to n steps if and only if n is at
      most 1. */
  lemma StepsExactly(n: nat)
    ensures n <= 1 <==> forall g: Size :: g.Fits() ==> Survives(g, n)
  {
    hide Survives;
    if n <= 1 {
      forall g: Size | g.Fits()
        ensures Survives(g, n)
      {
        OneStepSurvives(g, n);
      }
    } else {
      NarrowExactly(Size(2, 4), n);
      assert Size(2, 4).Fits();
    }
  }
}
