/** The states that loading one module goes through, and what each of its
    steps keeps.  t0, g0, e0 and tr0 are the table, the graph, the references
    from outside and the trace before the load. */
module ModuleLoading {
  import opened Graphs
  import opened Libraries
  import opened RefCounts
  import opened Traces
  import opened ModuleTable
  import opened ForcedUnloads

  /** The struct of a module whose library was opened but is not loaded. */
  function Opened(lib: Library, dependencies: set<Name>): Module {
    Module(lib.version, lib.bcversion, 1, false, dependencies, {})
  }

  /** The graph grew by modules of `c` whose initializers succeeded; loading
      modules stay where they were, and only `busy` may have changed. */
  ghost predicate Grown(inits: set<Name>, c: set<Name>, busy: Name,
                        t0: Table, g0: Graph, tr0: seq<Event>, t1: Table, g1: Graph, tr1: seq<Event>)
  {
    && Sub(g0.deps, g1.deps)
    && (forall n :: n in g1.deps ==> n in g0.deps || (n in c && n in inits && n !in t0))
    && (forall n :: n in t1 ==> n in t0 || n in g1.deps)
    && (forall n :: n in t0 && n !in g0.deps ==> n in t1 && (n == busy || t1[n] == t0[n]))
    && Continued(tr0, tr1)
  }

  lemma GrownTransitive(inits: set<Name>, c: set<Name>, c1: set<Name>, busy: Name,
                        t0: Table, g0: Graph, tr0: seq<Event>, t1: Table, g1: Graph, tr1: seq<Event>,
                        t2: Table, g2: Graph, tr2: seq<Event>)
    requires Grown(inits, c, busy, t0, g0, tr0, t1, g1, tr1)
    requires Grown(inits, c1, busy, t1, g1, tr1, t2, g2, tr2) && c1 <= c
    requires forall n :: n in g0.deps ==> n in t0
    requires forall n :: n in g1.deps ==> n in t1
    ensures Grown(inits, c, busy, t0, g0, tr0, t2, g2, tr2)
  {
    forall n | n in t0 && n !in g0.deps
      ensures n in t2 && (n == busy || t2[n] == t0[n])
    {
      assert n !in g1.deps;
    }
    forall n | n in g2.deps
      ensures n in g0.deps || (n in c && n in inits && n !in t0)
    {
      if n !in g1.deps {
        assert n !in t1;
        assert n !in g0.deps;
        assert n in t0 ==> n in t1;
      }
    }
  }

  lemma GrownLoading(inits: set<Name>, c: set<Name>, busy: Name,
                     t0: Table, g0: Graph, tr0: seq<Event>, t1: Table, g1: Graph, tr1: seq<Event>)
    requires Grown(inits, c, busy, t0, g0, tr0, t1, g1, tr1)
    ensures Loading(t1, g1) == Loading(t0, g0)
  {
    forall n
      ensures n in Loading(t1, g1) <==> n in Loading(t0, g0)
    {}
  }

  /** Everybody who holds a reference from outside is the core or loading. */
  ghost predicate Accounted(t: Table, ext: set<Ref>) {
    forall r :: r in ext ==> r.0 == CORE || r.0 in t
  }

  /** A need was met: p now holds n, and the graph grew by what n needs. */
  ghost predicate Met(libs: LibraryMap, inits: set<Name>, n: Name, p: Name,
                      t0: Table, g0: Graph, e0: set<Ref>, tr0: seq<Event>,
                      t1: Table, g1: Graph, e1: set<Ref>, tr1: seq<Event>)
  {
    && Good(libs, t1, g1, e1, tr1) && Accounted(t1, e1)
    && n in g1.deps
    && e1 == e0 + {(p, n)}
    && Grown(inits, Closure(Declared(libs), n), p, t0, g0, tr0, t1, g1, tr1)
    && (p in t0 ==> p in t1 && t1[p] == t0[p].(dependencies := t0[p].dependencies + {n}))
  }

  /** The loading module n has the first i of its dependencies. */
  ghost predicate Progress(libs: LibraryMap, inits: set<Name>, n: Name, i: nat,
                           t0: Table, g0: Graph, e0: set<Ref>, tr0: seq<Event>,
                           t: Table, g: Graph, ext: set<Ref>, tr: seq<Event>)
  {
    && n in libs && n !in t0 && n !in g.deps && i <= |libs[n].dependencies|
    && var ds := libs[n].dependencies[..i];
    && Good(libs, t, g, ext, tr) && Accounted(t, ext)
    && n in t && t[n] == Opened(libs[n], Names(ds))
    && ext == e0 + RefsFrom(n, Names(ds))
    && Grown(inits, Closure(Declared(libs), n), n, t0[n := Opened(libs[n], {})], g0, tr0, t, g, tr)
    && forall d :: d in ds ==> Offers(libs, d.name, AtVersion(d.version))
  }

  lemma ProgressBegins(libs: LibraryMap, inits: set<Name>, n: Name,
                       t0: Table, g0: Graph, e0: set<Ref>, tr0: seq<Event>)
    requires Good(libs, t0, g0, e0, tr0) && Accounted(t0, e0) && n in libs && n !in t0
    ensures Progress(libs, inits, n, 0, t0, g0, e0, tr0, t0[n := Opened(libs[n], {})], g0, e0, tr0)
  {
    GoodBegin(libs, t0, g0, e0, tr0, n, Opened(libs[n], {}));
    assert RefsFrom(n, Names([])) == {};
  }

  lemma NamesExtend(ds: seq<Dependency>, i: nat)
    requires i < |ds|
    ensures Names(ds[..i + 1]) == Names(ds[..i]) + {ds[i].name}
    ensures Distinct(ds) ==> ds[i].name !in Names(ds[..i])
  {
    assert ds[..i + 1] == ds[..i] + [ds[i]];
  }

  lemma RefsExtend(n: Name, ds: set<Name>, d: Name)
    ensures RefsFrom(n, ds) + {(n, d)} == RefsFrom(n, ds + {d})
  {}

  /** The next dependency may be asked for. */
  lemma ProgressAsks(libs: LibraryMap, inits: set<Name>, n: Name, i: nat,
                     t0: Table, g0: Graph, e0: set<Ref>, tr0: seq<Event>,
                     t: Table, g: Graph, ext: set<Ref>, tr: seq<Event>)
    requires Progress(libs, inits, n, i, t0, g0, e0, tr0, t, g, ext, tr)
    requires Accounted(t0, e0) && i < |libs[n].dependencies|
    ensures Good(libs, t, g, ext, tr) && Accounted(t, ext)
    ensures n in t && n !in g.deps && (n, libs[n].dependencies[i].name) !in ext
    ensures n != CORE
    ensures |libs.Keys - t.Keys| < |libs.Keys - t0.Keys|
  {
    NamesExtend(libs[n].dependencies, i);
    assert t0.Keys <= t.Keys;
    Smaller(libs.Keys - t.Keys, libs.Keys - t0.Keys, n);
  }

  lemma ProgressSteps(libs: LibraryMap, inits: set<Name>, n: Name, i: nat,
                      t0: Table, g0: Graph, e0: set<Ref>, tr0: seq<Event>,
                      t: Table, g: Graph, ext: set<Ref>, tr: seq<Event>,
                      t1: Table, g1: Graph, e1: set<Ref>, tr1: seq<Event>)
    requires Progress(libs, inits, n, i, t0, g0, e0, tr0, t, g, ext, tr)
    requires i < |libs[n].dependencies| && Good(libs, t0, g0, e0, tr0)
    requires var d := libs[n].dependencies[i];
             Met(libs, inits, d.name, n, t, g, ext, tr, t1, g1, e1, tr1) && Offers(libs, d.name, AtVersion(d.version))
    ensures Progress(libs, inits, n, i + 1, t0, g0, e0, tr0, t1, g1, e1, tr1)
  {
    hide Agrees, Consistent, Valid, Ordered, WellFormed, Replay, Closure, Names, RefsFrom, Offers, Accounted;
    var ds := libs[n].dependencies;
    NamesExtend(ds, i);
    RefsExtend(n, Names(ds[..i]), ds[i].name);
    DeclaredEdge(libs, n, ds[i]);
    AgreesKeys(libs, t0, g0);
    AgreesKeys(libs, t, g);
    GrownTransitive(inits, Closure(Declared(libs), n), Closure(Declared(libs), ds[i].name), n,
                    t0[n := Opened(libs[n], {})], g0, tr0, t, g, tr, t1, g1, tr1);
    assert ds[..i + 1] == ds[..i] + [ds[i]];
  }

  lemma AgreesKeys(libs: LibraryMap, t: Table, g: Graph)
    requires Agrees(libs, t, g)
    ensures forall n :: n in g.deps ==> n in t
  {}

  /** If n is loadable then so is its next dependency, where it stands. */
  lemma ProgressLoadable(libs: LibraryMap, inits: set<Name>, n: Name, need: Need, i: nat,
                         t0: Table, g0: Graph, e0: set<Ref>, tr0: seq<Event>,
                         t: Table, g: Graph, ext: set<Ref>, tr: seq<Event>)
    requires Progress(libs, inits, n, i, t0, g0, e0, tr0, t, g, ext, tr) && i < |libs[n].dependencies|
    requires Loadable(libs, inits, g0.deps.Keys, Loading(t0, g0), n, need)
    ensures var d := libs[n].dependencies[i];
            Loadable(libs, inits, g.deps.Keys, Loading(t, g), d.name, AtVersion(d.version))
  {
    var t1 := t0[n := Opened(libs[n], {})];
    GrownLoading(inits, Closure(Declared(libs), n), n, t1, g0, tr0, t, g, tr);
    assert Loading(t1, g0) == Loading(t0, g0) + {n};
    LoadableDependency(libs, inits, g0.deps.Keys, g.deps.Keys, Loading(t0, g0), n, need, libs[n].dependencies[i]);
  }

  /** Calls made on the way change nothing else. */
  lemma ProgressKept(libs: LibraryMap, inits: set<Name>, n: Name, i: nat,
                     t0: Table, g0: Graph, e0: set<Ref>, tr0: seq<Event>,
                     t: Table, g: Graph, ext: set<Ref>, tr: seq<Event>, tr1: seq<Event>)
    requires Progress(libs, inits, n, i, t0, g0, e0, tr0, t, g, ext, tr)
    requires Good(libs, t, g, ext, tr1) && Continued(tr, tr1)
    ensures Progress(libs, inits, n, i, t0, g0, e0, tr0, t, g, ext, tr1)
  {
    hide Good;
  }

  lemma ProgressInitializes(libs: LibraryMap, inits: set<Name>, n: Name,
                            t0: Table, g0: Graph, e0: set<Ref>, tr0: seq<Event>,
                            t: Table, g: Graph, ext: set<Ref>, tr: seq<Event>)
    requires n in libs && Progress(libs, inits, n, |libs[n].dependencies|, t0, g0, e0, tr0, t, g, ext, tr)
    ensures Progress(libs, inits, n, |libs[n].dependencies|, t0, g0, e0, tr0, t, g, ext,
                     tr + [Initialize(n, false)])
  {
    hide Good, Grown;
    var ds := libs[n].dependencies;
    assert ds[..|ds|] == ds;
    GoodInitialize(libs, t, g, ext, tr, n);
    ProgressKept(libs, inits, n, |ds|, t0, g0, e0, tr0, t, g, ext, tr, tr + [Initialize(n, false)]);
  }

  lemma ProgressParent(libs: LibraryMap, inits: set<Name>, n: Name, i: nat, p: Name,
                       t0: Table, g0: Graph, e0: set<Ref>, tr0: seq<Event>,
                       t: Table, g: Graph, ext: set<Ref>, tr: seq<Event>)
    requires Good(libs, t0, g0, e0, tr0) && p !in g0.deps && (p == CORE || p in t0)
    requires Progress(libs, inits, n, i, t0, g0, e0, tr0, t, g, ext, tr)
    ensures p !in g.deps && p != n && n in t
    ensures CORE !in t && (p == CORE || p in t)
  {
    hide Agrees, Valid, Consistent, Ordered, Replay;
    Facts(libs, t, g, ext, tr);
    Facts(libs, t0, g0, e0, tr0);
  }

  lemma LoadableOffers(libs: LibraryMap, inits: set<Name>, loaded: set<Name>, loading: set<Name>, d: Dependency)
    requires Loadable(libs, inits, loaded, loading, d.name, AtVersion(d.version))
    ensures Offers(libs, d.name, AtVersion(d.version))
  {}

  /** Giving up may start: n is loading and holds what it asked for so far. */
  lemma ProgressStops(libs: LibraryMap, inits: set<Name>, n: Name, i: nat,
                      t0: Table, g0: Graph, e0: set<Ref>, tr0: seq<Event>,
                      t: Table, g: Graph, ext: set<Ref>, tr: seq<Event>)
    requires Progress(libs, inits, n, i, t0, g0, e0, tr0, t, g, ext, tr) && Accounted(t0, e0)
    ensures Good(libs, t, g, ext, tr) && n in t && !t[n].loaded && t[n].rc == 1
    ensures forall d :: (n, d) in ext <==> d in t[n].dependencies
    ensures forall p :: Released(ext, p, n) == e0 - {(p, n)}
    ensures forall p :: Good(libs, t0, g0, e0, tr0) ==> (p, n) !in e0
  {
    hide Valid, Consistent, Ordered, Replay, Grown, Names;
    Facts(libs, t, g, ext, tr);
    var ds := Names(libs[n].dependencies[..i]);
    assert forall r :: r in e0 ==> r.0 != n;
    assert forall r :: r in RefsFrom(n, ds) ==> r.0 == n;
    forall d
      ensures (n, d) in ext <==> d in ds
    {
      if d in ds {
        assert (n, d) in RefsFrom(n, ds);
      }
    }
    if Good(libs, t0, g0, e0, tr0) {
      Facts(libs, t0, g0, e0, tr0);
    }
  }

  /** Rolling back restores exactly the state before the load: both states
      keep the invariant for the same references, so both are what a tracing
      collector would leave. */
  lemma RolledBack(libs: LibraryMap, inits: set<Name>, n: Name, i: nat,
                   t0: Table, g0: Graph, e0: set<Ref>, tr0: seq<Event>,
                   t: Table, g: Graph, ext: set<Ref>, tr: seq<Event>,
                   t1: Table, g1: Graph, tr1: seq<Event>)
    requires Good(libs, t0, g0, e0, tr0)
    requires Progress(libs, inits, n, i, t0, g0, e0, tr0, t, g, ext, tr)
    requires Good(libs, t1, g1, e0, tr1) && Unwound(t, g, tr, t1, g1, tr1, {n}) && n !in t1
    ensures t1 == t0 && g1 == g0 && Continued(tr0, tr1)
  {
    CollectedExactly(g, g0, e0);
    CollectedExactly(g, g1, e0);
    RolledBackTable(libs, inits, n, t0, g0, tr0, t, g, tr, t1, tr1);
  }

  lemma RolledBackTable(libs: LibraryMap, inits: set<Name>, n: Name,
                        t0: Table, g0: Graph, tr0: seq<Event>, t: Table, g: Graph, tr: seq<Event>,
                        t1: Table, tr1: seq<Event>)
    requires n in libs && n !in t0 && Agrees(libs, t0, g0) && Agrees(libs, t, g) && Agrees(libs, t1, g0)
    requires Grown(inits, Closure(Declared(libs), n), n, t0[n := Opened(libs[n], {})], g0, tr0, t, g, tr)
    requires Unwound(t, g, tr, t1, g0, tr1, {n}) && n !in t1
    ensures t1 == t0
  {
    var t0n := t0[n := Opened(libs[n], {})];
    forall m | m !in g0.deps
      ensures m in t0 <==> m in t1
      ensures m in t0 ==> t0[m] == t1[m]
    {
      if m in t0 {
        assert m in t0n && m != n;
        assert m in t && t[m] == t0[m];
        assert Entry(libs, g0, m, t0[m]);
      }
      if m in t1 {
        assert m in t && m != n;
        assert t1[m] == t[m];
        assert m in g.deps <==> t[m].loaded by { assert Entry(libs, g, m, t[m]); }
        assert m in g0.deps <==> t1[m].loaded by { assert Entry(libs, g0, m, t1[m]); }
      }
    }
    SameTable(libs, t0, t1, g0);
  }

  /** The table once p lists n among its dependencies; the core is not in it. */
  function Noted(t: Table, p: Name, n: Name): Table {
    if p in t then t[p := t[p].(dependencies := t[p].dependencies + {n})] else t
  }

  lemma GoodNoted(libs: LibraryMap, t: Table, g: Graph, ext: set<Ref>, tr: seq<Event>, p: Name, n: Name)
    requires Good(libs, t, g, ext, tr) && p !in g.deps
    ensures Good(libs, Noted(t, p, n), g, ext, tr)
  {
    if p in t {
      Facts(libs, t, g, ext, tr);
      assert Entry(libs, g, p, t[p]);
      GoodBegin(libs, t, g, ext, tr, p, t[p].(dependencies := t[p].dependencies + {n}));
    }
  }

  /** A module that is loaded already only counts one more holder. */
  lemma MetLoaded(libs: LibraryMap, inits: set<Name>, n: Name, p: Name,
                  t0: Table, g0: Graph, e0: set<Ref>, tr0: seq<Event>)
    requires Good(libs, t0, g0, e0, tr0) && Accounted(t0, e0) && n in t0 && t0[n].loaded
    requires p !in g0.deps && (p == CORE || p in t0) && (p, n) !in e0
    ensures n in g0.deps && n in g0.rdeps && n in g0.rc
    ensures var t1 := t0[n := t0[n].(rdeps := t0[n].rdeps + {p}, rc := t0[n].rc + 1)];
            Met(libs, inits, n, p, t0, g0, e0, tr0, Noted(t1, p, n), AddHolder(g0, p, n), e0 + {(p, n)}, tr0)
  {
    hide Valid, Consistent, Ordered, Replay, Closure, Agrees, Grown;
    FactsOf(libs, t0, g0, e0, tr0, n);
    HolderFacts(libs, t0, g0, e0, tr0, n);
    Facts(libs, t0, g0, e0, tr0);
    GoodAdd(libs, t0, g0, e0, tr0, p, n);
    var t1 := t0[n := t0[n].(rdeps := t0[n].rdeps + {p}, rc := t0[n].rc + 1)];
    GoodNoted(libs, t1, AddHolder(g0, p, n), e0 + {(p, n)}, tr0, p, n);
    GrownHeld(inits, Closure(Declared(libs), n), t0, g0, tr0, n, p);
  }

  lemma HolderFacts(libs: LibraryMap, t: Table, g: Graph, ext: set<Ref>, tr: seq<Event>, n: Name)
    requires Good(libs, t, g, ext, tr) && n in g.deps
    ensures n in g.rdeps && n in g.rc
  {}

  lemma GrownHeld(inits: set<Name>, c: set<Name>, t: Table, g: Graph, tr: seq<Event>, n: Name, p: Name)
    requires n in t && n in g.deps && n in g.rdeps && n in g.rc
    ensures var t1 := t[n := t[n].(rdeps := t[n].rdeps + {p}, rc := t[n].rc + 1)];
            Grown(inits, c, p, t, g, tr, Noted(t1, p, n), AddHolder(g, p, n), tr)
  {}

  lemma MetGrown(libs: LibraryMap, inits: set<Name>, n: Name, p: Name,
                 t0: Table, g0: Graph, e0: set<Ref>, tr0: seq<Event>,
                 t: Table, g: Graph, ext: set<Ref>, tr: seq<Event>)
    requires n in libs && n !in t0 && n in inits && p != n && n in t
    requires Sub(g.deps, g.deps[n := t[n].dependencies])
    requires Grown(inits, Closure(Declared(libs), n), n, t0[n := Opened(libs[n], {})], g0, tr0, t, g, tr)
    ensures var t1 := t[n := t[n].(loaded := true, rdeps := {p})];
            Grown(inits, Closure(Declared(libs), n), p, t0, g0, tr0,
                  Noted(t1, p, n), With(g, n, t[n].dependencies, {p}), tr + [Initialize(n, true)])
  {
    hide Closure, Continued, Opened, Declared, Noted;
    InClosure(Declared(libs), n, n);
    ContinuedNext(tr0, tr, Initialize(n, true));
    var t1 := t[n := t[n].(loaded := true, rdeps := {p})];
    NotedKeeps(t1, p, n);
    forall m | m in t0 && m !in g0.deps
      ensures m in Noted(t1, p, n) && (m == p || Noted(t1, p, n)[m] == t0[m])
    {
      assert t0[n := Opened(libs[n], {})][m] == t0[m];
    }
  }

  lemma NotedKeeps(t: Table, p: Name, n: Name)
    ensures Noted(t, p, n).Keys == t.Keys && forall m :: m in t && m != p ==> Noted(t, p, n)[m] == t[m]
  {}

  /** All dependencies are in place and the initializer succeeded. */
  lemma MetFresh(libs: LibraryMap, inits: set<Name>, n: Name, p: Name,
                 t0: Table, g0: Graph, e0: set<Ref>, tr0: seq<Event>,
                 t: Table, g: Graph, ext: set<Ref>, tr: seq<Event>)
    requires Good(libs, t0, g0, e0, tr0) && Accounted(t0, e0)
    requires p !in g0.deps && (p == CORE || p in t0)
    requires n in libs && Progress(libs, inits, n, |libs[n].dependencies|, t0, g0, e0, tr0, t, g, ext, tr)
    requires n in inits && Usable(libs, n)
    ensures var t1 := t[n := t[n].(loaded := true, rdeps := {p})];
            Met(libs, inits, n, p, t0, g0, e0, tr0, Noted(t1, p, n), With(g, n, t[n].dependencies, {p}),
                e0 + {(p, n)}, tr + [Initialize(n, true)])
  {
    hide Valid, Consistent, Ordered, Replay, Closure, Loadable, Agrees, Grown;
    var ds := libs[n].dependencies;
    assert ds[..|ds|] == ds;
    Facts(libs, t0, g0, e0, tr0);
    Facts(libs, t, g, ext, tr);
    GrownNotLoaded(libs, inits, n, p, t0, g0, tr0, t, g, tr);
    GoodLoaded(libs, t, g, e0, tr, n, p);
    var t1 := t[n := t[n].(loaded := true, rdeps := {p})];
    var g1, tr1 := With(g, n, t[n].dependencies, {p}), tr + [Initialize(n, true)];
    GoodNoted(libs, t1, g1, e0 + {(p, n)}, tr1, p, n);
    MetGrown(libs, inits, n, p, t0, g0, e0, tr0, t, g, ext, tr);
  }

  lemma GrownNotLoaded(libs: LibraryMap, inits: set<Name>, n: Name, p: Name,
                       t0: Table, g0: Graph, tr0: seq<Event>, t: Table, g: Graph, tr: seq<Event>)
    requires n in libs && n !in t0
    requires Grown(inits, Closure(Declared(libs), n), n, t0[n := Opened(libs[n], {})], g0, tr0, t, g, tr)
    requires p == CORE || p in t0
    requires p !in g0.deps && CORE !in libs && (forall m :: m in g.deps ==> m in libs && m in t)
    requires forall m :: m in g0.deps ==> m in t0
    ensures p !in g.deps && p != n
    ensures t0.Keys <= t.Keys
    ensures p in t0 ==> p in t && t[p] == t0[p]
  {}

  /** Whatever could be loaded was loadable, with exactly its closure. */
  lemma MetLoadable(libs: LibraryMap, inits: set<Name>, n: Name, p: Name, need: Need,
                    t0: Table, g0: Graph, e0: set<Ref>, tr0: seq<Event>,
                    t1: Table, g1: Graph, e1: set<Ref>, tr1: seq<Event>)
    requires Met(libs, inits, n, p, t0, g0, e0, tr0, t1, g1, e1, tr1) && Offers(libs, n, need)
    ensures Loadable(libs, inits, g0.deps.Keys, Loading(t0, g0), n, need)
    ensures g1.deps.Keys == g0.deps.Keys + Closure(Declared(libs), n)
  {
    LoadedIsLoadable(libs, inits, g0.deps.Keys, Loading(t0, g0), g1.deps, n, need);
  }

  lemma NotLoadable(libs: LibraryMap, inits: set<Name>, n: Name, need: Need, t0: Table, g0: Graph)
    requires || !Offers(libs, n, need) || n in Loading(t0, g0) || !Usable(libs, n)
             || (n !in g0.deps && n !in inits)
    ensures !Loadable(libs, inits, g0.deps.Keys, Loading(t0, g0), n, need)
  {
    InClosure(Declared(libs), n, n);
  }

  // ----- between two operations only the core holds references from outside

  lemma RequestMet(libs: LibraryMap, inits: set<Name>, n: Name,
                   t0: Table, g0: Graph, e0: set<Ref>, tr0: seq<Event>, held: set<Name>,
                   t1: Table, g1: Graph, e1: set<Ref>, tr1: seq<Event>)
    requires Met(libs, inits, n, CORE, t0, g0, e0, tr0, t1, g1, e1, tr1)
    requires t0.Keys == g0.deps.Keys && e0 == RefsFrom(CORE, held) && n in libs && Replay(libs, tr0) == g0.deps
    ensures Good(libs, t1, g1, e1, tr1) && t1.Keys == g1.deps.Keys && e1 == RefsFrom(CORE, held + {n})
    ensures t1.Keys == t0.Keys + Closure(Declared(libs), n)
    ensures Sub(g0.deps, g1.deps) && Continued(tr0, tr1) && Declares(libs, g0.deps, g1.deps)
  {
    AgreesKeys(libs, t1, g1);
    assert t1.Keys == g1.deps.Keys;
    MetLoadable(libs, inits, n, CORE, AnyVersion, t0, g0, e0, tr0, t1, g1, e1, tr1);
    RefsExtend(CORE, held, n);
    NewEdges(libs, g0.deps, tr0, g1.deps, tr1);
  }

  /** The modules that are new have exactly the declared edges. */
  ghost predicate Declares(libs: LibraryMap, e0: Adj, e1: Adj) {
    forall n :: n in e1 && n !in e0 ==> n in libs && e1[n] == Names(libs[n].dependencies)
  }

  lemma NewEdges(libs: LibraryMap, e0: Adj, tr0: seq<Event>, e1: Adj, tr1: seq<Event>)
    requires Replay(libs, tr0) == e0 && Replay(libs, tr1) == e1 && Continued(tr0, tr1)
    ensures Declares(libs, e0, e1)
  {
    hide Replay, Continued;
    forall n | n in e1 && n !in e0
      ensures n in libs && e1[n] == Names(libs[n].dependencies)
    {
      ContinuedEdges(libs, tr0, tr1, n);
    }
  }


  lemma Collected(libs: LibraryMap, g0: Graph, t1: Table, g1: Graph, e1: set<Ref>, tr1: seq<Event>)
    requires Good(libs, t1, g1, e1, tr1) && Sub(g1.deps, g0.deps)
    ensures g1 == Collect(g0, e1)
  {
    CollectedExactly(g0, g1, e1);
  }

  lemma RevokedRefs(held: set<Name>, n: Name)
    requires CORE != n
    ensures RefsFrom(CORE, held) - {(CORE, n)} == RefsFrom(CORE, held - {n})
  {}

  lemma UnwoundKeys(libs: LibraryMap, t0: Table, g0: Graph, e0: set<Ref>, tr0: seq<Event>,
                    t1: Table, g1: Graph, e1: set<Ref>, tr1: seq<Event>, gone: Name)
    requires Good(libs, t0, g0, e0, tr0) && Good(libs, t1, g1, e1, tr1)
    requires t0.Keys == g0.deps.Keys && Unwound(t0, g0, tr0, t1, g1, tr1, {gone})
    ensures t1.Keys == g1.deps.Keys
  {
    Facts(libs, t0, g0, e0, tr0);
    Facts(libs, t1, g1, e1, tr1);
    assert forall n :: n in t1 ==> n in g1.deps;
  }

  lemma SourceFacts(libs: LibraryMap, t: Table, g: Graph, ext: set<Ref>, tr: seq<Event>, n: Name)
    requires Good(libs, t, g, ext, tr) && n in g.deps
    ensures n in t && t[n].dependencies == g.deps[n] && g.deps[n] <= g.deps.Keys
    ensures n in g.rdeps && t[n].rdeps == g.rdeps[n]
  {
    assert Entry(libs, g, n, t[n]);
  }

  lemma AcyclicStep(libs: LibraryMap, t: Table, g: Graph, ext: set<Ref>, tr: seq<Event>, a: Name, b: Name)
    requires Good(libs, t, g, ext, tr) && a in g.deps && b in g.deps[a]
    ensures b in g.deps && |Descendants(g.deps, b)| < |Descendants(g.deps, a)|
  {
    EdgeReaches(g.deps, a, b);
    DescendantsStep(g.deps, a, b);
  }

  lemma LoadedNotSelf(libs: LibraryMap, t: Table, g: Graph, ext: set<Ref>, tr: seq<Event>)
    requires Good(libs, t, g, ext, tr)
    ensures forall n :: n in g.deps ==> !Reaches(g.deps, n, n)
  {}

  lemma Emptied(libs: LibraryMap, t: Table, g: Graph, tr: seq<Event>)
    requires Good(libs, t, g, {}, tr)
    ensures g.deps == map[] && Replay(libs, tr) == map[]
  {
    NothingHeld(g);
  }

  // ----- forced unloading

  /** Of the modules that the core held, those that do not depend on n are
      held still. */
  ghost predicate Kept(e: Adj, held0: set<Name>, held1: set<Name>, n: Name) {
    forall c :: c in held0 && c != n && !Reaches(e, c, n) ==> c in held1
  }

  /** What rdeps lists between two operations. */
  lemma HoldersListed(libs: LibraryMap, t: Table, g: Graph, ext: set<Ref>, tr: seq<Event>, held: set<Name>, n: Name)
    requires Good(libs, t, g, ext, tr) && ext == RefsFrom(CORE, held) && n in g.deps
    ensures n in t && n in g.rdeps && t[n].rdeps == g.rdeps[n]
    ensures forall h :: h in g.rdeps[n] && h != CORE ==> h in g.deps && n in g.deps[h]
    ensures forall h :: h in g.deps && n in g.deps[h] ==> h in g.rdeps[n] && h != CORE
  {
    SourceFacts(libs, t, g, ext, tr, n);
    Facts(libs, t, g, ext, tr);
    assert Mirrored(g, ext, n);
  }

  lemma HeldLoaded(libs: LibraryMap, t: Table, g: Graph, ext: set<Ref>, tr: seq<Event>, held: set<Name>)
    requires Good(libs, t, g, ext, tr) && ext == RefsFrom(CORE, held)
    ensures held <= t.Keys
  {
    Facts(libs, t, g, ext, tr);
    forall c | c in held
      ensures c in t
    {
      assert (CORE, c) in ext;
    }
  }

  lemma ForceBegins(libs: LibraryMap, t: Table, g: Graph, ext: set<Ref>, tr: seq<Event>, held: set<Name>, n: Name)
    requires Good(libs, t, g, ext, tr) && ext == RefsFrom(CORE, held)
    ensures CORE !in t && held <= t.Keys && Kept(g.deps, held, held, n)
    ensures g == Collect(g, ext) && Sub(g.deps, g.deps)
  {
    Facts(libs, t, g, ext, tr);
    HeldLoaded(libs, t, g, ext, tr, held);
    Collected(libs, g, t, g, ext, tr);
  }

  /** A dependent r may be unloaded first. */
  lemma ForceAsks(libs: LibraryMap, t0: Table, g0: Graph, e0: set<Ref>, tr0: seq<Event>, g: Graph,
                  held0: set<Name>, n: Name, r: Name)
    requires Good(libs, t0, g0, e0, tr0) && e0 == RefsFrom(CORE, held0) && Sub(g.deps, g0.deps)
    requires n in g0.deps && n in t0 && r in t0[n].rdeps && r != CORE
    ensures r in g0.deps && n in g0.deps[r] && r in t0
    ensures |Ancestors(g.deps, r)| < |Ancestors(g0.deps, n)|
  {
    HoldersListed(libs, t0, g0, e0, tr0, held0, n);
    Facts(libs, t0, g0, e0, tr0);
    LoadedNotSelf(libs, t0, g0, e0, tr0);
    AncestorsShrink(g0.deps, g.deps, r, n);
  }

  /** Everything in the table is loaded, so rdeps lists the dependents. */
  lemma WalkFirst(libs: LibraryMap, t: Table, g: Graph, ext: set<Ref>, tr: seq<Event>, held: set<Name>, n: Name,
                  order: Order)
    requires Good(libs, t, g, ext, tr) && ext == RefsFrom(CORE, held) && n in g.deps && n in t
    requires Complete(libs.Keys, order)
    ensures Walking(g.deps, held, held, n, order, 0, t[n].rdeps - {CORE})
    ensures Loaded(g.deps, held, n)
  {
    hide Reaches, Walking, Good, Complete, Loaded;
    HoldersListed(libs, t, g, ext, tr, held, n);
    Facts(libs, t, g, ext, tr);
    OrderCovers(libs, t, g, ext, tr, order);
    forall r | r in g.deps
      ensures Loaded(g.deps, held, r)
    {
      AllLoaded(libs, t, g, ext, tr, held, r);
    }
    assert Listed(g.deps, held, n) == t[n].rdeps - {CORE};
    WalkBegins(g.deps, held, n, order);
  }

  lemma AllLoaded(libs: LibraryMap, t: Table, g: Graph, ext: set<Ref>, tr: seq<Event>, held: set<Name>, r: Name)
    requires Good(libs, t, g, ext, tr) && ext == RefsFrom(CORE, held) && r in g.deps
    ensures Loaded(g.deps, held, r)
  {
    hide Reaches, Agrees, Ordered, Consistent;
    AllLive(g, ext, r);
  }

  lemma OrderCovers(libs: LibraryMap, t: Table, g: Graph, ext: set<Ref>, tr: seq<Event>, order: Order)
    requires Good(libs, t, g, ext, tr) && Complete(libs.Keys, order)
    ensures Acyclic(g.deps) && Closed(g.deps) && Complete(g.deps.Keys, order)
  {
    hide Reaches, Good;
    GoodGraph(libs, t, g, ext, tr);
    forall n | n in g.deps
      ensures n in libs
    {
      FactsOf(libs, t, g, ext, tr, n);
    }
  }

  lemma GoodGraph(libs: LibraryMap, t: Table, g: Graph, ext: set<Ref>, tr: seq<Event>)
    requires Good(libs, t, g, ext, tr)
    ensures Acyclic(g.deps) && Closed(g.deps)
  {
    hide Reaches, Acyclic, Closed, Agrees, Consistent, Ordered, WellFormed;
  }

  lemma NothingLeft(libs: LibraryMap, t: Table, g: Graph, ext: set<Ref>, tr: seq<Event>, held: set<Name>)
    requires Good(libs, t, g, ext, tr) && ext == RefsFrom(CORE, held) && t.Keys == g.deps.Keys
    ensures held == {} ==> t == map[]
  {
    if held == {} {
      assert ext == {};
      NothingHeld(g);
    }
  }

  lemma NotThere(libs: LibraryMap, t: Table, g: Graph, ext: set<Ref>, tr: seq<Event>, held: set<Name>, n: Name,
                 order: Order)
    requires Good(libs, t, g, ext, tr) && Complete(libs.Keys, order) && n !in t
    ensures Forced(g.deps, held, n, order, false, held) && !Loaded(g.deps, held, n)
  {
    OrderCovers(libs, t, g, ext, tr, order);
    Facts(libs, t, g, ext, tr);
    NotLoadedFails(g.deps, held, n, order);
  }

  lemma KeptStep(e0: Adj, e1: Adj, held0: set<Name>, held1: set<Name>, held2: set<Name>, n: Name, r: Name)
    requires Kept(e0, held0, held1, n) && Kept(e1, held1, held2, r)
    requires Sub(e1, e0) && r in e0 && n in e0[r]
    ensures Kept(e0, held0, held2, n)
  {
    EdgeReaches(e0, r, n);
    forall c | c in held0 && c != n && !Reaches(e0, c, n)
      ensures c in held2
    {
      if Reaches(e1, c, r) {
        WithinReaches(e1, e0, c, r);
        ReachesTransitive(e0, c, r, n);
      }
    }
  }

  /** After the loop nothing in the graph depends on n any more. */
  lemma ForceEnds(libs: LibraryMap, t0: Table, g0: Graph, e0: set<Ref>, tr0: seq<Event>, held0: set<Name>,
                  t: Table, g: Graph, ext: set<Ref>, tr: seq<Event>, held: set<Name>, n: Name)
    requires Good(libs, t0, g0, e0, tr0) && e0 == RefsFrom(CORE, held0)
    requires Good(libs, t, g, ext, tr) && ext == RefsFrom(CORE, held) && Sub(g.deps, g0.deps)
    requires n in g0.deps && n in t0
    requires forall h :: h in t0[n].rdeps && h != CORE ==> h !in g.deps
    ensures forall h :: h in g.deps ==> n !in g.deps[h]
    ensures n in g.deps ==> n in held
  {
    HoldersListed(libs, t0, g0, e0, tr0, held0, n);
    if n !in held {
      Unheld(g, ext, n);
    }
  }

  lemma ForceRevoked(libs: LibraryMap, g0: Graph, held0: set<Name>, g1: Graph, held1: set<Name>,
                     t2: Table, g2: Graph, e2: set<Ref>, tr2: seq<Event>, held2: set<Name>, n: Name)
    requires Good(libs, t2, g2, e2, tr2) && e2 == RefsFrom(CORE, held2) && t2.Keys == g2.deps.Keys
    requires Kept(g0.deps, held0, held1, n) && Sub(g1.deps, g0.deps) && Sub(g2.deps, g1.deps)
    requires forall h :: h in g1.deps ==> n !in g1.deps[h]
    requires held2 == held1 - {n}
    ensures n !in t2 && Kept(g0.deps, held0, held2, n)
    ensures forall x :: Reaches(g0.deps, x, n) ==> x !in t2
  {
    Unheld(g2, e2, n);
    forall x | Reaches(g0.deps, x, n)
      ensures x !in t2
    {
      if x in g2.deps {
        ClosedReaches(g2.deps, g0.deps, x, n);
      }
    }
  }
}
