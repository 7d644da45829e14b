/** Reference counting over the module graph.

    `Graph` holds what the structs of the loaded modules hold: the names in
    `dependencies`, the names in `rdeps` and the count `rc`.  References held
    by anything outside that graph (the core, a module that is still loading,
    a module already taken out of the table whose own dependencies are still
    to be released) are the pairs in `ext`. */
module RefCounts {
  import opened Graphs

  datatype Graph = Graph(deps: Adj, rdeps: Adj, rc: map<Name, int>)

  type Ref = (Name, Name)

  /** The names in rdeps are exactly the holders of a reference to m. */
  ghost predicate Mirrored(g: Graph, ext: set<Ref>, m: Name)
    requires m in g.rdeps
  {
    forall h :: h in g.rdeps[m] <==> (h, m) in ext || (h in g.deps && m in g.deps[h])
  }

  ghost predicate Counted(g: Graph, m: Name)
    requires m in g.rdeps && m in g.rc
  {
    g.rc[m] == |g.rdeps[m]| && g.rc[m] > 0
  }

  /** The invariant of the table: dependencies and rdeps are inverse, every
      count is the positive number of holders, and there is no cycle. */
  ghost predicate Valid(g: Graph, ext: set<Ref>) {
    && g.rdeps.Keys == g.deps.Keys
    && g.rc.Keys == g.deps.Keys
    && Closed(g.deps)
    && Acyclic(g.deps)
    && (forall e :: e in ext ==> e.0 !in g.deps && e.1 in g.deps)
    && (forall m :: m in g.deps ==> Mirrored(g, ext, m) && Counted(g, m))
  }

  /** m is held from outside, directly or through other modules. */
  ghost predicate Live(e: Adj, ext: set<Ref>, m: Name) {
    exists r :: r in ext && (r.1 == m || Reaches(e, r.1, m))
  }

  ghost function Holders(e: Adj, ext: set<Ref>, m: Name): set<Name> {
    (set r | r in ext && r.1 == m :: r.0) + (set h | h in e && m in e[h])
  }

  ghost function HolderSets(e: Adj, ext: set<Ref>): map<Name, set<Name>> {
    map m | m in e :: Holders(e, ext, m)
  }

  ghost function HolderCounts(e: Adj, ext: set<Ref>): map<Name, int> {
    map m | m in e :: |Holders(e, ext, m)|
  }

  /** What a tracing collector would leave behind: the live modules, with the
      holders recomputed from scratch. */
  ghost function Collect(g: Graph, ext: set<Ref>): Graph {
    var live := map m | m in g.deps && Live(g.deps, ext, m) :: g.deps[m];
    Graph(live, HolderSets(live, ext), HolderCounts(live, ext))
  }

  /** Following holders upwards always ends outside the graph. */
  lemma AllLive(g: Graph, ext: set<Ref>, m: Name)
    requires Valid(g, ext) && m in g.deps
    ensures Live(g.deps, ext, m)
    decreases |Ends(g.deps)| - |Descendants(g.deps, m)|
  {
    assert Counted(g, m) && Mirrored(g, ext, m);
    assert g.rdeps[m] != {};
    var h :| h in g.rdeps[m];
    if (h, m) in ext {
      assert (h, m).1 == m;
    } else {
      EdgeReaches(g.deps, h, m);
      DescendantsStep(g.deps, h, m);
      Subset(Descendants(g.deps, h), Ends(g.deps));
      AllLive(g, ext, h);
      var r :| r in ext && (r.1 == h || Reaches(g.deps, r.1, h));
      if r.1 != h {
        ReachesTransitive(g.deps, r.1, h, m);
      }
    }
  }

  lemma Subset<T>(a: set<T>, b: set<T>)
    requires a <= b
    ensures |a| <= |b|
  {
    assert |b| == |a| + |b - a|;
  }

  lemma LiveStays(g0: Graph, g1: Graph, ext: set<Ref>, m: Name)
    requires Valid(g1, ext) && Sub(g1.deps, g0.deps) && Live(g0.deps, ext, m)
    ensures m in g1.deps
  {
    var r :| r in ext && (r.1 == m || Reaches(g0.deps, r.1, m));
    if r.1 != m {
      ClosedReaches(g1.deps, g0.deps, r.1, m);
    }
  }

  lemma LiveInSubgraph(g0: Graph, g1: Graph, ext: set<Ref>, m: Name)
    requires Valid(g1, ext) && Sub(g1.deps, g0.deps) && m in g1.deps
    ensures Live(g0.deps, ext, m)
  {
    AllLive(g1, ext, m);
    var r :| r in ext && (r.1 == m || Reaches(g1.deps, r.1, m));
    if r.1 != m {
      WithinReaches(g1.deps, g0.deps, r.1, m);
    }
  }

  lemma LiveExactly(g0: Graph, g1: Graph, ext: set<Ref>)
    requires Valid(g1, ext) && Sub(g1.deps, g0.deps)
    ensures g1.deps == Collect(g0, ext).deps
  {
    forall m | m in g0.deps
      ensures m in g1.deps <==> Live(g0.deps, ext, m)
    {
      if m in g1.deps {
        LiveInSubgraph(g0, g1, ext, m);
      } else if Live(g0.deps, ext, m) {
        LiveStays(g0, g1, ext, m);
      }
    }
  }

  lemma HoldersExactly(g: Graph, ext: set<Ref>, m: Name)
    requires Valid(g, ext) && m in g.deps
    ensures g.rdeps[m] == Holders(g.deps, ext, m) && g.rc[m] == |Holders(g.deps, ext, m)|
  {
    assert Mirrored(g, ext, m) && Counted(g, m);
    var hs := Holders(g.deps, ext, m);
    forall h
      ensures h in hs <==> h in g.rdeps[m]
    {
      if (h, m) in ext {
        assert (h, m).1 == m && (h, m).0 == h;
      }
    }
  }

  lemma CountsExactly(g: Graph, ext: set<Ref>)
    requires g.rdeps.Keys == g.deps.Keys && g.rc.Keys == g.deps.Keys
    requires forall m :: m in g.deps ==> g.rdeps[m] == Holders(g.deps, ext, m)
    requires forall m :: m in g.deps ==> g.rc[m] == |Holders(g.deps, ext, m)|
    ensures g.rdeps == HolderSets(g.deps, ext) && g.rc == HolderCounts(g.deps, ext)
  {
    assert g.rdeps.Keys == HolderSets(g.deps, ext).Keys;
    assert g.rc.Keys == HolderCounts(g.deps, ext).Keys;
  }

  /** The reference counting theorem: whatever smaller graph keeps the
      invariant for the references `ext`, it is the one that a tracing
      collector would leave. */
  lemma CollectedExactly(g0: Graph, g1: Graph, ext: set<Ref>)
    requires Valid(g1, ext) && Sub(g1.deps, g0.deps)
    ensures g1 == Collect(g0, ext)
  {
    LiveExactly(g0, g1, ext);
    forall m | m in g1.deps
      ensures g1.rdeps[m] == Holders(g1.deps, ext, m) && g1.rc[m] == |Holders(g1.deps, ext, m)|
    {
      HoldersExactly(g1, ext, m);
    }
    CountsExactly(g1, ext);
  }

  /** With nothing held from outside there is no module left. */
  lemma NothingHeld(g: Graph)
    requires Valid(g, {})
    ensures g.deps == map[]
  {
    if g.deps != map[] {
      var m :| m in g.deps;
      AllLive(g, {}, m);
    }
  }

  // ----- one reference more, one reference less

  function AddHolder(g: Graph, h: Name, m: Name): Graph
    requires m in g.rdeps && m in g.rc
  {
    g.(rdeps := g.rdeps[m := g.rdeps[m] + {h}], rc := g.rc[m := g.rc[m] + 1])
  }

  function DropHolder(g: Graph, h: Name, m: Name): Graph
    requires m in g.rdeps && m in g.rc
  {
    g.(rdeps := g.rdeps[m := g.rdeps[m] - {h}], rc := g.rc[m := g.rc[m] - 1])
  }

  function Without(g: Graph, m: Name): Graph {
    Graph(g.deps - {m}, g.rdeps - {m}, g.rc - {m})
  }

  function With(g: Graph, m: Name, ds: set<Name>, hs: set<Name>): Graph {
    Graph(g.deps[m := ds], g.rdeps[m := hs], g.rc[m := |hs|])
  }

  ghost function RefsFrom(h: Name, ds: set<Name>): set<Ref> {
    set d | d in ds :: (h, d)
  }

  lemma HolderCounted(g: Graph, ext: set<Ref>, h: Name, m: Name, k: Name)
    requires Valid(g, ext) && m in g.deps && h !in g.deps && (h, m) !in ext && k in g.deps
    ensures Mirrored(AddHolder(g, h, m), ext + {(h, m)}, k) && Counted(AddHolder(g, h, m), k)
  {
    hide Acyclic, Closed;
    assert Mirrored(g, ext, k) && Counted(g, k);
  }

  lemma AddHolderCounts(g: Graph, ext: set<Ref>, h: Name, m: Name)
    requires Valid(g, ext) && m in g.deps && h !in g.deps && (h, m) !in ext
    ensures Valid(AddHolder(g, h, m), ext + {(h, m)})
  {
    hide Mirrored, Counted, Acyclic, Closed;
    forall k | k in g.deps
      ensures Mirrored(AddHolder(g, h, m), ext + {(h, m)}, k) && Counted(AddHolder(g, h, m), k)
    {
      HolderCounted(g, ext, h, m, k);
    }
  }

  /** Counting a reference keeps the invariant exactly when the holder does
      not hold one already: the tables of names record it once, rc twice. */
  lemma AddHolderValid(g: Graph, ext: set<Ref>, h: Name, m: Name)
    requires Valid(g, ext) && m in g.deps && h !in g.deps
    ensures Valid(AddHolder(g, h, m), ext + {(h, m)}) <==> (h, m) !in ext
  {
    if (h, m) !in ext {
      AddHolderCounts(g, ext, h, m);
    } else {
      assert Mirrored(g, ext, m) && Counted(g, m);
      assert g.rdeps[m] + {h} == g.rdeps[m];
      assert !Counted(AddHolder(g, h, m), m);
    }
  }

  lemma DroppedCounted(g: Graph, ext: set<Ref>, h: Name, m: Name, k: Name)
    requires Valid(g, ext) && (h, m) in ext && g.rc[m] > 1 && k in g.deps
    ensures Mirrored(DropHolder(g, h, m), ext - {(h, m)}, k) && Counted(DropHolder(g, h, m), k)
  {
    hide Acyclic, Closed;
    assert Mirrored(g, ext, k) && Counted(g, k);
    assert k == m ==> h in g.rdeps[m];
  }

  /** The count stays positive: the reference to drop is not the last one. */
  lemma DropHolderValid(g: Graph, ext: set<Ref>, h: Name, m: Name)
    requires Valid(g, ext) && (h, m) in ext && g.rc[m] > 1
    ensures Valid(DropHolder(g, h, m), ext - {(h, m)})
  {
    hide Mirrored, Counted, Acyclic, Closed;
    var g1, ext1 := DropHolder(g, h, m), ext - {(h, m)};
    forall k | k in g1.deps
      ensures Mirrored(g1, ext1, k) && Counted(g1, k)
    {
      DroppedCounted(g, ext, h, m, k);
    }
  }

  lemma LastHolder(g: Graph, ext: set<Ref>, h: Name, m: Name)
    requires Valid(g, ext) && (h, m) in ext && g.rc[m] == 1
    ensures g.rdeps[m] == {h}
    ensures forall k :: k in g.deps ==> m !in g.deps[k]
    ensures forall e :: e in ext && e.1 == m ==> e.0 == h
  {
    assert Mirrored(g, ext, m) && Counted(g, m);
    Singleton(g.rdeps[m], h);
    assert forall k :: k in g.deps && m in g.deps[k] ==> k in g.rdeps[m];
    assert forall e :: e in ext && e.1 == m ==> (e.0, m) in ext;
  }

  lemma CountedBelow(g: Graph, g1: Graph, k: Name)
    requires k in g.rdeps && k in g.rc && k in g1.rdeps && k in g1.rc
    requires g1.rdeps[k] == g.rdeps[k] && g1.rc[k] == g.rc[k] && Counted(g, k)
    ensures Counted(g1, k)
  {}

  lemma WithoutCounts(g: Graph, ext: set<Ref>, h: Name, m: Name, k: Name)
    requires Valid(g, ext) && (h, m) in ext && m in g.deps && k in g.deps && k != m
    ensures Mirrored(Without(g, m), ext - {(h, m)} + RefsFrom(m, g.deps[m]), k)
    ensures Counted(Without(g, m), k)
  {
    hide Acyclic, Closed, Counted;
    assert Mirrored(g, ext, k) && Counted(g, k);
    var g1, ext1 := Without(g, m), ext - {(h, m)} + RefsFrom(m, g.deps[m]);
    forall x
      ensures x in g1.rdeps[k] <==> (x, k) in ext1 || (x in g1.deps && k in g1.deps[x])
    {
      assert x in g.rdeps[k] <==> (x, k) in ext || (x in g.deps && k in g.deps[x]);
      assert (m, k) in RefsFrom(m, g.deps[m]) <==> k in g.deps[m];
    }
    CountedBelow(g, g1, k);
  }

  /** The last reference to m goes: nothing in the table depends on m, and its
      own references now come from outside the table. */
  lemma WithoutValid(g: Graph, ext: set<Ref>, h: Name, m: Name)
    requires Valid(g, ext) && (h, m) in ext && g.rc[m] == 1
    ensures Valid(Without(g, m), ext - {(h, m)} + RefsFrom(m, g.deps[m]))
    ensures Sub(Without(g, m).deps, g.deps)
  {
    LastHolder(g, ext, h, m);
    var g1, ext1 := Without(g, m), ext - {(h, m)} + RefsFrom(m, g.deps[m]);
    assert Closed(g1.deps);
    WithinAcyclic(g1.deps, g.deps);
    forall k | k in g1.deps
      ensures Mirrored(g1, ext1, k) && Counted(g1, k)
    {
      WithoutCounts(g, ext, h, m, k);
    }
    forall e | e in ext1
      ensures e.0 !in g1.deps && e.1 in g1.deps
    {
      if e !in ext {
        assert e.1 in g.deps[m] && m !in g.deps[m];
      }
    }
  }

  lemma Singleton<T>(s: set<T>, x: T)
    requires x in s && |s| == 1
    ensures s == {x}
  {
    assert |s - {x}| == 0;
  }

  lemma WithCounted(g: Graph, ext: set<Ref>, m: Name, ds: set<Name>, h: Name, k: Name)
    requires m !in g.deps && h !in g.deps && h != m && (k in g.deps || k == m)
    requires forall e :: e in ext ==> e.0 != m
    requires Valid(g, ext + RefsFrom(m, ds))
    ensures Mirrored(With(g, m, ds, {h}), ext + {(h, m)}, k) && Counted(With(g, m, ds, {h}), k)
  {
    hide Acyclic, Mirrored, Counted;
    if k == m { WithCountedSelf(g, ext, m, ds, h); } else { WithCountedOther(g, ext, m, ds, h, k); }
  }

  lemma WithCountedSelf(g: Graph, ext: set<Ref>, m: Name, ds: set<Name>, h: Name)
    requires m !in g.deps && h !in g.deps && h != m
    requires forall e :: e in ext ==> e.0 != m
    requires Valid(g, ext + RefsFrom(m, ds))
    ensures Mirrored(With(g, m, ds, {h}), ext + {(h, m)}, m) && Counted(With(g, m, ds, {h}), m)
  {
    hide Acyclic;
    var ext0 := ext + RefsFrom(m, ds);
    forall e | e in ext
      ensures e.1 != m
    {
      assert e in ext0;
    }
    assert m in ds ==> (m, m) in ext0;
  }

  lemma WithCountedOther(g: Graph, ext: set<Ref>, m: Name, ds: set<Name>, h: Name, k: Name)
    requires m !in g.deps && h !in g.deps && h != m && k in g.deps
    requires forall e :: e in ext ==> e.0 != m
    requires Valid(g, ext + RefsFrom(m, ds))
    ensures Mirrored(With(g, m, ds, {h}), ext + {(h, m)}, k) && Counted(With(g, m, ds, {h}), k)
  {
    hide Acyclic;
    var ext0 := ext + RefsFrom(m, ds);
    assert Mirrored(g, ext0, k) && Counted(g, k);
    var g1, ext1 := With(g, m, ds, {h}), ext + {(h, m)};
    forall x
      ensures x in g1.rdeps[k] <==> (x, k) in ext1 || (x in g1.deps && k in g1.deps[x])
    {
      assert x in g.rdeps[k] <==> (x, k) in ext0 || (x in g.deps && k in g.deps[x]);
      assert (m, k) in ext0 <==> k in ds;
    }
  }

  /** A loading module becomes a loaded one: the references it held from
      outside become edges of the graph, and h holds it. */
  lemma WithValid(g: Graph, ext: set<Ref>, m: Name, ds: set<Name>, h: Name)
    requires m !in g.deps && h !in g.deps && h != m
    requires forall e :: e in ext ==> e.0 != m
    requires Valid(g, ext + RefsFrom(m, ds))
    ensures Valid(With(g, m, ds, {h}), ext + {(h, m)})
    ensures Sub(g.deps, With(g, m, ds, {h}).deps)
  {
    hide Mirrored, Counted, Acyclic;
    var ext0 := ext + RefsFrom(m, ds);
    forall d | d in ds
      ensures d in g.deps
    {
      assert (m, d) in ext0;
    }
    NewNodeAcyclic(g.deps, m, ds);
    forall e | e in ext
      ensures e.0 !in g.deps && e.1 in g.deps
    {
      assert e in ext0;
    }
    forall k | k in g.deps || k == m
      ensures Mirrored(With(g, m, ds, {h}), ext + {(h, m)}, k) && Counted(With(g, m, ds, {h}), k)
    {
      WithCounted(g, ext, m, ds, h, k);
    }
  }

  function AddEdge(g: Graph, s: Name, d: Name): Graph
    requires s in g.deps && d in g.rdeps && d in g.rc
  {
    AddHolder(g, s, d).(deps := g.deps[s := g.deps[s] + {d}])
  }

  lemma AddEdgeCounts(g: Graph, ext: set<Ref>, s: Name, d: Name, k: Name)
    requires Valid(g, ext) && s in g.deps && d in g.deps && d !in g.deps[s] && k in g.deps
    ensures Mirrored(AddEdge(g, s, d), ext, k) && Counted(AddEdge(g, s, d), k)
  {
    assert Mirrored(g, ext, k) && Counted(g, k);
    assert (s, d) !in ext;
  }

  /** A new edge between two loaded modules keeps the invariant exactly when
      it joins two different modules and closes no cycle. */
  lemma AddEdgeValid(g: Graph, ext: set<Ref>, s: Name, d: Name)
    requires Valid(g, ext) && s in g.deps && d in g.deps && d !in g.deps[s]
    ensures Valid(AddEdge(g, s, d), ext) <==> (s != d && !Reaches(g.deps, d, s))
  {
    AddEdgeAcyclic(g.deps, s, d);
    forall k | k in g.deps
      ensures Mirrored(AddEdge(g, s, d), ext, k) && Counted(AddEdge(g, s, d), k)
    {
      AddEdgeCounts(g, ext, s, d, k);
    }
  }

  ghost function Ancestors(e: Adj, m: Name): set<Name> {
    set a | a in e && Reaches(e, a, m)
  }

  /** Dependents have fewer dependents, also after modules went away. */
  lemma AncestorsShrink(e0: Adj, e1: Adj, r: Name, m: Name)
    requires Sub(e1, e0) && Acyclic(e0) && r in e0 && m in e0[r]
    ensures |Ancestors(e1, r)| < |Ancestors(e0, m)|
  {
    EdgeReaches(e0, r, m);
    forall a | a in Ancestors(e1, r)
      ensures a in Ancestors(e0, m) && a != r
    {
      WithinReaches(e1, e0, a, r);
      ReachesTransitive(e0, a, r, m);
    }
    Smaller(Ancestors(e1, r), Ancestors(e0, m), r);
  }

  /** The last edge of a walk. */
  lemma ReachesLast(e: Adj, a: Name, b: Name) returns (h: Name)
    requires Reaches(e, a, b)
    ensures h in e && b in e[h]
  {
    var p :| PathBetween(e, a, p, b);
    h := p[|p| - 2];
    assert p[|p| - 2 + 1] in e[h];
  }

  /** A module that nothing holds is not there. */
  lemma Unheld(g: Graph, ext: set<Ref>, m: Name)
    requires Valid(g, ext)
    requires forall r :: r in ext ==> r.1 != m
    requires forall h :: h in g.deps ==> m !in g.deps[h]
    ensures m !in g.deps
  {
    if m in g.deps {
      AllLive(g, ext, m);
      var r :| r in ext && (r.1 == m || Reaches(g.deps, r.1, m));
      var h := ReachesLast(g.deps, r.1, m);
    }
  }
}
