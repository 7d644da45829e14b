/** The table of modules of src/module.c, and the single changes that its
    operations are made of. */
module ModuleTable {
  import opened Graphs
  import opened Versions
  import opened Libraries
  import opened RefCounts
  import opened Traces

  /** What the struct of one module holds; the structs live in the table and
      refer to each other by name. */
  datatype Module = Module(
    version: Version,
    bcversion: Version,
    rc: int,
    loaded: bool,
    dependencies: set<Name>,
    rdeps: set<Name>)

  type Table = map<Name, Module>

  ghost predicate Entry(libs: LibraryMap, g: Graph, n: Name, m: Module) {
    && n in libs && m.version == libs[n].version && m.bcversion == libs[n].bcversion
    && (m.loaded <==> n in g.deps)
    && (m.loaded ==>
          && n in g.rdeps && n in g.rc
          && m.dependencies == g.deps[n] && m.rdeps == g.rdeps[n] && m.rc == g.rc[n])
  }

  /** The structs in the table agree with the graph of the loaded modules. */
  ghost predicate Agrees(libs: LibraryMap, t: Table, g: Graph) {
    && (forall n :: n in t ==> Entry(libs, g, n, t[n]))
    && (forall n :: n in g.deps ==> n in t)
  }

  /** The invariant at every call and return, even inside an operation. */
  ghost predicate Good(libs: LibraryMap, t: Table, g: Graph, ext: set<Ref>, trace: seq<Event>) {
    && WellFormed(libs)
    && Agrees(libs, t, g)
    && Valid(g, ext)
    && Consistent(libs, g.deps)
    && Ordered(libs, trace) && Replay(libs, trace) == g.deps
  }

  ghost function Loading(t: Table, g: Graph): set<Name> {
    t.Keys - g.deps.Keys
  }

  /** A later state of an unloading: the table and graph only shrank, apart
      from `gone` the loading modules are as they were, more calls were made. */
  ghost predicate Unwound(t0: Table, g0: Graph, trace0: seq<Event>, t1: Table, g1: Graph, trace1: seq<Event>,
                          gone: set<Name>)
  {
    && Sub(g1.deps, g0.deps)
    && t1.Keys <= t0.Keys
    && (forall n :: n in t1 && t0[n].loaded ==> t1[n].loaded)
    && (forall n :: n in t0 && !t0[n].loaded && n !in gone ==> n in t1 && t1[n] == t0[n])
    && Continued(trace0, trace1)
  }

  lemma UnwoundTransitive(t0: Table, g0: Graph, trace0: seq<Event>, t1: Table, g1: Graph, trace1: seq<Event>,
                          t2: Table, g2: Graph, trace2: seq<Event>, gone: set<Name>)
    requires Unwound(t0, g0, trace0, t1, g1, trace1, gone) && Unwound(t1, g1, trace1, t2, g2, trace2, {})
    ensures Unwound(t0, g0, trace0, t2, g2, trace2, gone)
    ensures |t1| <= |t0|
  {
    Subset(t1.Keys, t0.Keys);
  }

  /** What is left of `ext` once m is not needed by p any more. */
  ghost function Released(ext: set<Ref>, p: Name, m: Name): set<Ref> {
    set r | r in ext && r != (p, m) && r.0 != m
  }

  lemma Held(libs: LibraryMap, t: Table, g: Graph, ext: set<Ref>, trace: seq<Event>, p: Name, m: Name)
    requires Good(libs, t, g, ext, trace) && (p, m) in ext
    ensures m in g.deps && m in t && t[m].loaded && p !in g.deps
    ensures m in g.rdeps && m in g.rc && t[m].rc == g.rc[m] && t[m].rc > 0
    ensures Released(ext, p, m) == ext - {(p, m)}
  {
    assert Counted(g, m);
  }

  lemma Facts(libs: LibraryMap, t: Table, g: Graph, ext: set<Ref>, trace: seq<Event>)
    requires Good(libs, t, g, ext, trace)
    ensures forall r :: r in ext ==> r.0 !in g.deps && r.1 in g.deps
    ensures forall n :: n in t ==> n in libs && (t[n].loaded <==> n in g.deps)
    ensures forall n :: n in t ==> t[n].version == libs[n].version && t[n].bcversion == libs[n].bcversion
    ensures forall n :: n in g.deps ==> n in t
    ensures CORE !in libs
  {}

  lemma Replayed(libs: LibraryMap, t: Table, g: Graph, ext: set<Ref>, trace: seq<Event>)
    requires Good(libs, t, g, ext, trace)
    ensures Replay(libs, trace) == g.deps
  {}

  /** The facts about one module. */
  lemma FactsOf(libs: LibraryMap, t: Table, g: Graph, ext: set<Ref>, trace: seq<Event>, n: Name)
    requires Good(libs, t, g, ext, trace)
    ensures n in t ==> n in libs && (t[n].loaded <==> n in g.deps)
    ensures n in g.deps ==> n in t
    ensures CORE !in libs && CORE !in t
  {}

  /** Dropping the reference to m and then all references that m held. */
  lemma ReleasedInTwoSteps(libs: LibraryMap, t: Table, trace: seq<Event>, g: Graph, ext: set<Ref>, ext1: set<Ref>,
                           p: Name, m: Name, ds: set<Name>)
    requires Good(libs, t, g, ext, trace)
    requires if m in g.deps then ext1 == ext - {(p, m)} + RefsFrom(m, ds)
             else ext1 == ext && forall d :: (m, d) in ext <==> d in ds
    ensures forall d :: (m, d) in ext1 <==> d in ds
    ensures ext1 - RefsFrom(m, ds) == Released(ext, p, m)
  {
    Facts(libs, t, g, ext, trace);
    hide Good;
    if m !in g.deps {
      forall r | r in ext && r.0 == m
        ensures r in RefsFrom(m, ds)
      {
        assert r == (m, r.1);
      }
    }
  }

  lemma AgreesDrop(libs: LibraryMap, t: Table, g: Graph, p: Name, m: Name)
    requires Agrees(libs, t, g) && m in g.deps && m in t && m in g.rdeps && m in g.rc
    ensures Agrees(libs, t[m := t[m].(rdeps := t[m].rdeps - {p}, rc := t[m].rc - 1)], DropHolder(g, p, m))
  {
    assert Entry(libs, g, m, t[m]);
  }

  lemma GoodDrop(libs: LibraryMap, t: Table, g: Graph, ext: set<Ref>, trace: seq<Event>, p: Name, m: Name)
    requires Good(libs, t, g, ext, trace) && (p, m) in ext && m in t && t[m].rc > 1
    ensures m in g.rdeps && m in g.rc
    ensures var t1 := t[m := t[m].(rdeps := t[m].rdeps - {p}, rc := t[m].rc - 1)];
            && Good(libs, t1, DropHolder(g, p, m), ext - {(p, m)}, trace)
            && Unwound(t, g, trace, t1, DropHolder(g, p, m), trace, {m})
  {
    Held(libs, t, g, ext, trace, p, m);
    DropHolderValid(g, ext, p, m);
    AgreesDrop(libs, t, g, p, m);
  }

  lemma AgreesWithout(libs: LibraryMap, t: Table, g: Graph, m: Name)
    requires Agrees(libs, t, g)
    ensures Agrees(libs, t - {m}, Without(g, m))
  {
    forall n | n in t && n != m
      ensures Entry(libs, Without(g, m), n, t[n])
    {
      assert Entry(libs, g, n, t[n]);
    }
  }

  lemma ConsistentWithout(libs: LibraryMap, g: Graph, m: Name)
    requires Consistent(libs, g.deps)
    ensures Consistent(libs, Without(g, m).deps)
  {}

  /** The last reference goes: the finalizer may run, and the module leaves. */
  lemma GoodWithout(libs: LibraryMap, t: Table, g: Graph, ext: set<Ref>, trace: seq<Event>, p: Name, m: Name)
    requires Good(libs, t, g, ext, trace) && (p, m) in ext && m in t && t[m].rc == 1
    ensures m in g.deps && t[m].dependencies == g.deps[m] && m !in Without(g, m).deps
    ensures Good(libs, t - {m}, Without(g, m), ext - {(p, m)} + RefsFrom(m, g.deps[m]),
                 trace + [Finalize(m)])
    ensures Unwound(t, g, trace, t - {m}, Without(g, m), trace + [Finalize(m)], {m})
  {
    Held(libs, t, g, ext, trace, p, m);
    assert Entry(libs, g, m, t[m]);
    WithoutValid(g, ext, p, m);
    LastHolder(g, ext, p, m);
    AgreesWithout(libs, t, g, m);
    ConsistentWithout(libs, g, m);
    assert Allowed(libs, g.deps, Finalize(m)) by {
      assert Closed(g.deps);
    }
    Extend(libs, trace, Finalize(m));
  }

  /** A module that never finished loading leaves without a finalizer. */
  lemma GoodAbandon(libs: LibraryMap, t: Table, g: Graph, ext: set<Ref>, trace: seq<Event>, m: Name)
    requires Good(libs, t, g, ext, trace) && m !in g.deps
    ensures Good(libs, t - {m}, g, ext, trace)
    ensures Unwound(t, g, trace, t - {m}, g, trace, {m})
  {}

  lemma GoodBegin(libs: LibraryMap, t: Table, g: Graph, ext: set<Ref>, trace: seq<Event>, n: Name, m: Module)
    requires Good(libs, t, g, ext, trace) && n !in g.deps && n in libs
    requires m.version == libs[n].version && m.bcversion == libs[n].bcversion && !m.loaded
    ensures Good(libs, t[n := m], g, ext, trace)
  {}

  lemma AgreesAdd(libs: LibraryMap, t: Table, g: Graph, p: Name, m: Name)
    requires Agrees(libs, t, g) && m in g.deps && m in t && m in g.rdeps && m in g.rc
    ensures Agrees(libs, t[m := t[m].(rdeps := t[m].rdeps + {p}, rc := t[m].rc + 1)], AddHolder(g, p, m))
  {
    assert Entry(libs, g, m, t[m]);
  }

  lemma GoodAdd(libs: LibraryMap, t: Table, g: Graph, ext: set<Ref>, trace: seq<Event>, p: Name, m: Name)
    requires Good(libs, t, g, ext, trace) && p !in g.deps && (p, m) !in ext && m in t && t[m].loaded
    ensures m in g.deps && m in g.rdeps && m in g.rc
    ensures Good(libs, t[m := t[m].(rdeps := t[m].rdeps + {p}, rc := t[m].rc + 1)],
                 AddHolder(g, p, m), ext + {(p, m)}, trace)
  {
    assert Entry(libs, g, m, t[m]);
    AddHolderValid(g, ext, p, m);
    AgreesAdd(libs, t, g, p, m);
  }

  lemma AgreesWith(libs: LibraryMap, t: Table, g: Graph, m: Name, p: Name)
    requires Agrees(libs, t, g) && m in t && m !in g.deps && t[m].rc == 1
    ensures Agrees(libs, t[m := t[m].(loaded := true, rdeps := {p})], With(g, m, t[m].dependencies, {p}))
  {
    forall n | n in t && n != m
      ensures Entry(libs, With(g, m, t[m].dependencies, {p}), n, t[n])
    {
      assert Entry(libs, g, n, t[n]);
    }
    assert Entry(libs, g, m, t[m]);
  }

  lemma ConsistentWith(libs: LibraryMap, e: Adj, m: Name)
    requires Consistent(libs, e) && Usable(libs, m) && Names(libs[m].dependencies) <= e.Keys
    requires forall d :: d in libs[m].dependencies ==> Offers(libs, d.name, AtVersion(d.version))
    ensures Consistent(libs, e[m := Names(libs[m].dependencies)])
  {}

  /** The initializer runs while every declared dependency is up. */
  lemma GoodInitialize(libs: LibraryMap, t: Table, g: Graph, ext: set<Ref>, trace: seq<Event>, m: Name)
    requires Good(libs, t, g, ext, trace) && m in libs && m !in g.deps
    requires RefsFrom(m, Names(libs[m].dependencies)) <= ext
    ensures Ordered(libs, trace + [Initialize(m, true)])
    ensures Replay(libs, trace + [Initialize(m, true)]) == g.deps[m := Names(libs[m].dependencies)]
    ensures Good(libs, t, g, ext, trace + [Initialize(m, false)])
    ensures Names(libs[m].dependencies) <= g.deps.Keys
  {
    forall d | d in Names(libs[m].dependencies)
      ensures d in g.deps
    {
      assert (m, d) in ext;
    }
    Extend(libs, trace, Initialize(m, true));
    Extend(libs, trace, Initialize(m, false));
  }

  /** A loading module, all dependencies in place, becomes a loaded one. */
  lemma GoodLoaded(libs: LibraryMap, t: Table, g: Graph, ext: set<Ref>, trace: seq<Event>, m: Name, p: Name)
    requires m in t && m in libs && Good(libs, t, g, ext + RefsFrom(m, Names(libs[m].dependencies)), trace)
    requires m !in g.deps && t[m].rc == 1 && p !in g.deps && p != m
    requires t[m].dependencies == Names(libs[m].dependencies) && Usable(libs, m)
    requires forall r :: r in ext ==> r.0 != m
    requires forall d :: d in libs[m].dependencies ==> Offers(libs, d.name, AtVersion(d.version))
    ensures Good(libs, t[m := t[m].(loaded := true, rdeps := {p})], With(g, m, t[m].dependencies, {p}),
                 ext + {(p, m)}, trace + [Initialize(m, true)])
    ensures Sub(g.deps, With(g, m, t[m].dependencies, {p}).deps)
  {
    var ds := t[m].dependencies;
    GoodInitialize(libs, t, g, ext + RefsFrom(m, ds), trace, m);
    WithValid(g, ext, m, ds, p);
    AgreesWith(libs, t, g, m, p);
    ConsistentWith(libs, g.deps, m);
  }

  /** The table is determined by the graph and the entries still loading. */
  lemma SameTable(libs: LibraryMap, t0: Table, t1: Table, g: Graph)
    requires Agrees(libs, t0, g) && Agrees(libs, t1, g)
    requires forall n :: n !in g.deps ==> (n in t0 <==> n in t1)
    requires forall n :: n !in g.deps && n in t0 ==> t0[n] == t1[n]
    ensures t0 == t1
  {
    forall n | n in t0
      ensures n in t1 && t0[n] == t1[n]
    {
      assert Entry(libs, g, n, t0[n]);
      if n in g.deps {
        assert Entry(libs, g, n, t1[n]);
      }
    }
    forall n | n in t1
      ensures n in t0
    {
      assert Entry(libs, g, n, t1[n]);
    }
  }

  /** A new edge between two loaded modules. */
  function Linked(t: Table, s: Name, d: Name): Table
    requires s in t && d in t
  {
    var t1 := t[s := t[s].(dependencies := t[s].dependencies + {d})];
    t1[d := t1[d].(rdeps := t1[d].rdeps + {s}, rc := t1[d].rc + 1)]
  }

  lemma AgreesLinked(libs: LibraryMap, t: Table, g: Graph, s: Name, d: Name)
    requires Agrees(libs, t, g) && s in g.deps && d in g.deps && s in t && d in t
    requires d in g.rdeps && d in g.rc && s in g.rdeps && s in g.rc
    ensures Agrees(libs, Linked(t, s, d), AddEdge(g, s, d))
  {
    assert Entry(libs, g, s, t[s]) && Entry(libs, g, d, t[d]);
    forall n | n in t
      ensures Entry(libs, AddEdge(g, s, d), n, Linked(t, s, d)[n])
    {
      assert Entry(libs, g, n, t[n]);
    }
  }

  /** The invariant survives a new edge exactly when the edge joins two
      different modules and closes no cycle. */
  lemma GoodLinked(libs: LibraryMap, t: Table, g: Graph, ext: set<Ref>, trace: seq<Event>, s: Name, d: Name)
    requires Good(libs, t, g, ext, trace)
    requires s in t && t[s].loaded && d in t && t[d].loaded && d !in t[s].dependencies
    ensures s in g.deps && d in g.deps && d in g.rdeps && d in g.rc
    ensures Good(libs, Linked(t, s, d), AddEdge(g, s, d), ext, trace + [Link(s, d)]) <==>
            (s != d && !Reaches(g.deps, d, s))
  {
    assert Entry(libs, g, s, t[s]) && Entry(libs, g, d, t[d]);
    AddEdgeValid(g, ext, s, d);
    AgreesLinked(libs, t, g, s, d);
    Extend(libs, trace, Link(s, d));
    assert Consistent(libs, AddEdge(g, s, d).deps);
  }
}
