/** The module manager of src/module.c: the table of modules and the recursive
    functions that load and unload them. */
module ModuleManager {
  import opened Graphs
  import opened Versions
  import opened Libraries
  import opened RefCounts
  import opened Traces
  import opened ModuleTable
  import opened ForcedUnloads
  import opened ModuleLoading

  class Manager {
    const libs: LibraryMap
    var modules: Table
    var core: Module

    /** The loaded modules as a graph, the references held from outside that
        graph, and the calls made so far. */
    ghost var g: Graph
    ghost var ext: set<Ref>
    ghost var trace: seq<Event>

    /** Holds at every call and return, even in the middle of an operation. */
    ghost predicate Invariant()
      reads this
    {
      Good(libs, modules, g, ext, trace)
    }

    /** Between two operations nothing is loading, and only the core holds
        references from outside. */
    ghost predicate Valid()
      reads this
    {
      && Invariant()
      && modules.Keys == g.deps.Keys
      && core.rdeps == {}
      && ext == RefsFrom(CORE, core.dependencies)
    }

    constructor (libs: LibraryMap)
      requires WellFormed(libs)
      ensures this.libs == libs && modules == map[] && core.dependencies == {} && trace == []
      ensures Valid()
    {
      this.libs := libs;
      modules := map[];
      core := Module(Version(0, 0, 0), Version(0, 0, 0), 0, true, {}, {});
      g, ext, trace := Graph(map[], map[], map[]), {}, [];
    }

    method UnneedModule(name: Name, parent: Name)
      requires Invariant() && name in modules && parent !in g.deps
      requires if modules[name].loaded then (parent, name) in ext else modules[name].rc == 1
      requires !modules[name].loaded ==>
                 forall d :: (name, d) in ext <==> d in modules[name].dependencies
      modifies this`modules, this`g, this`ext, this`trace
      ensures Invariant()
      ensures ext == Released(old(ext), parent, name)
      ensures Unwound(old(modules), old(g), old(trace), modules, g, trace, {name})
      ensures !old(modules)[name].loaded ==> name !in modules
      decreases |modules|, 0
    {
      hide Good, Released, RefsFrom, Unwound, Without, DropHolder;
      ghost var t0, g0, e0 := modules, g, ext;
      var mod := modules[name];
      FactsOf(libs, modules, g, ext, trace, name);
      if mod.loaded {
        Held(libs, modules, g, ext, trace, parent, name);
      }
      mod := mod.(rdeps := mod.rdeps - {parent}, rc := mod.rc - 1);
      modules := modules[name := mod];
      if mod.rc > 0 {
        GoodDrop(libs, t0, g, ext, trace, parent, name);
        g, ext := DropHolder(g, parent, name), ext - {(parent, name)};
        return;
      }
      if mod.loaded {
        // the finalizer is called here, with the module still in the table
        GoodWithout(libs, t0, g, ext, trace, parent, name);
        ghost var ds := g.deps[name];
        g, ext, trace := Without(g, name), ext - {(parent, name)} + RefsFrom(name, ds), trace + [Finalize(name)];
      } else {
        GoodAbandon(libs, t0, g, ext, trace, name);
      }
      modules := modules - {name};
      assert modules == t0 - {name};
      ReleasedInTwoSteps(libs, t0, old(trace), g0, e0, ext, parent, name, mod.dependencies);
      label L:
      ReleaseDependencies(name, mod.dependencies);
      UnwoundTransitive(t0, g0, old(trace), old@L(modules), old@L(g), old@L(trace), modules, g, trace, {name});
    }

    /** Tells everything in `dependencies` that `name`, which has left the
        table, does not need it any more; the order is that of a hash table. */
    method ReleaseDependencies(name: Name, dependencies: set<Name>)
      requires Invariant() && name !in modules && name !in g.deps
      requires forall d :: (name, d) in ext <==> d in dependencies
      modifies this`modules, this`g, this`ext, this`trace
      ensures Invariant()
      ensures ext == old(ext) - RefsFrom(name, dependencies)
      ensures Unwound(old(modules), old(g), old(trace), modules, g, trace, {})
      ensures name !in modules
      decreases |modules|, 1
    {
      hide Good;
      var todo := dependencies;
      while todo != {}
        invariant Invariant() && name !in modules && name !in g.deps
        invariant todo <= dependencies
        invariant forall d :: (name, d) in ext <==> d in todo
        invariant ext == old(ext) - RefsFrom(name, dependencies - todo)
        invariant Unwound(old(modules), old(g), old(trace), modules, g, trace, {})
      {
        var d :| d in todo;
        Held(libs, modules, g, ext, trace, name, d);
        Subset(modules.Keys, old(modules).Keys);
        UnneedModule(d, name);
        todo := todo - {d};
      }
    }
 
    /** Tells module `name` that `parent` needs it, loading it first if it is
        not in the table; `inits` are the modules whose initializers report
        success during this operation. */
    method NeedModule(name: Name, need: Need, parent: Name, inits: set<Name>) returns (ok: bool)
      requires Invariant() && Accounted(modules, ext)
      requires parent !in g.deps && (parent == CORE || parent in modules) && (parent, name) !in ext
      modifies this
      ensures ok <==> Loadable(libs, inits, old(g).deps.Keys, old(Loading(modules, g)), name, need)
      ensures Judged(libs, inits, old(g).deps.Keys, old(Loading(modules, g)), name, need, ok)
      ensures ok ==> Met(libs, inits, name, parent, old(modules), old(g), old(ext), old(trace),
                         modules, g, ext, trace)
      ensures ok ==> core == if parent == CORE then old(core).(dependencies := old(core).dependencies + {name})
                             else old(core)
      ensures !ok ==> Invariant() && modules == old(modules) && core == old(core)
      ensures !ok ==> g == old(g) && ext == old(ext) && Continued(old(trace), trace)
      decreases |libs.Keys - modules.Keys|, 3
    {
      hide Good, Loadable, Met, Closure, Usable, Judged;
      Facts(libs, modules, g, ext, trace);
      Judges(libs, inits, g.deps.Keys, Loading(modules, g), name, need);
      if name in modules {
        var mod := modules[name];
        if !mod.loaded || !Compatible(mod.version, mod.bcversion, need) {
          NotLoadable(libs, inits, name, need, modules, g);
          return false;
        }
        MetLoaded(libs, inits, name, parent, modules, g, ext, trace);
        MetLoadable(libs, inits, name, parent, need, modules, g, ext, trace,
                    Noted(modules[name := mod.(rdeps := mod.rdeps + {parent}, rc := mod.rc + 1)], parent, name),
                    AddHolder(g, parent, name), ext + {(parent, name)}, trace);
        modules := modules[name := mod.(rdeps := mod.rdeps + {parent}, rc := mod.rc + 1)];
        g, ext := AddHolder(g, parent, name), ext + {(parent, name)};
        NoteDependency(parent, name);
        return true;
      }
      ok := LoadModule(name, need, parent, inits);
    }

    /** Enters `name` into the dependency table of `parent`. */
    method NoteDependency(parent: Name, name: Name)
      requires CORE !in modules && (parent == CORE || parent in modules)
      modifies this`modules, this`core
      ensures modules == Noted(old(modules), parent, name)
      ensures core == if parent == CORE then old(core).(dependencies := old(core).dependencies + {name})
                      else old(core)
    {
      if parent == CORE {
        core := core.(dependencies := core.dependencies + {name});
      } else {
        modules := modules[parent := modules[parent].(dependencies := modules[parent].dependencies + {name})];
      }
    }

    /** The part of `NeedModule` for a module that is not in the table. */
    method LoadModule(name: Name, need: Need, parent: Name, inits: set<Name>) returns (ok: bool)
      requires Invariant() && Accounted(modules, ext) && name !in modules
      requires parent !in g.deps && (parent == CORE || parent in modules) && (parent, name) !in ext
      modifies this
      ensures ok <==> Loadable(libs, inits, old(g).deps.Keys, old(Loading(modules, g)), name, need)
      ensures ok ==> Met(libs, inits, name, parent, old(modules), old(g), old(ext), old(trace),
                         modules, g, ext, trace)
      ensures ok ==> core == if parent == CORE then old(core).(dependencies := old(core).dependencies + {name})
                             else old(core)
      ensures !ok ==> Invariant() && modules == old(modules) && core == old(core)
      ensures !ok ==> g == old(g) && ext == old(ext) && Continued(old(trace), trace)
      decreases |libs.Keys - modules.Keys|, 2
    {
      hide Good, Loadable, Met, Closure, Progress, With, RefsFrom, Accounted, Loading;
      ghost var t0, g0, e0, tr0 := modules, g, ext, trace;
      ghost var possible := Loadable(libs, inits, g0.deps.Keys, Loading(t0, g0), name, need);
      FactsOf(libs, modules, g, ext, trace, name);
      FactsOf(libs, modules, g, ext, trace, parent);
      if name !in libs {
        NotLoadable(libs, inits, name, need, t0, g0);
        return false;
      }
      var lib := libs[name];
      if !lib.complete || !Compatible(lib.version, lib.bcversion, need) {
        NotLoadable(libs, inits, name, need, t0, g0);
        return false;
      }
      modules := modules[name := Opened(lib, {})];
      ProgressBegins(libs, inits, name, t0, g0, e0, tr0);

      var met := LoadDependencies(name, need, parent, inits, t0, g0, e0, tr0);
      if !met {
        return false;
      }
      if !lib.resolves || !lib.initializer {
        NotLoadable(libs, inits, name, need, t0, g0);
        GiveUp(name, parent, |lib.dependencies|, inits, t0, g0, e0, tr0);
        return false;
      }
      // the initializer is called here
      if name !in inits {
        NotLoadable(libs, inits, name, need, t0, g0);
        ProgressInitializes(libs, inits, name, t0, g0, e0, tr0, modules, g, ext, trace);
        trace := trace + [Initialize(name, false)];
        GiveUp(name, parent, |lib.dependencies|, inits, t0, g0, e0, tr0);
        return false;
      }
      Initialized(name, need, parent, inits, t0, g0, e0, tr0);
      ok := true;
    }

    /** The end of a successful load: the module is loaded and held by its
        parent. */
    method Initialized(name: Name, ghost need: Need, parent: Name, ghost inits: set<Name>,
                       ghost t0: Table, ghost g0: Graph, ghost e0: set<Ref>, ghost tr0: seq<Event>)
      requires Good(libs, t0, g0, e0, tr0) && Accounted(t0, e0) && parent !in g0.deps
      requires (parent == CORE || parent in t0) && (parent, name) !in e0
      requires name in inits && name in libs && name !in t0 && Usable(libs, name)
      requires Compatible(libs[name].version, libs[name].bcversion, need)
      requires Progress(libs, inits, name, |libs[name].dependencies|, t0, g0, e0, tr0, modules, g, ext, trace)
      modifies this
      ensures Loadable(libs, inits, g0.deps.Keys, Loading(t0, g0), name, need)
      ensures Met(libs, inits, name, parent, t0, g0, e0, tr0, modules, g, ext, trace)
      ensures core == if parent == CORE then old(core).(dependencies := old(core).dependencies + {name}) else old(core)
    {
      hide Good, Loadable, Met, Closure, Progress, With, RefsFrom, Accounted, Loading;
      FactsOf(libs, t0, g0, e0, tr0, parent);
      ProgressParent(libs, inits, name, |libs[name].dependencies|, parent, t0, g0, e0, tr0, modules, g, ext, trace);
      MetFresh(libs, inits, name, parent, t0, g0, e0, tr0, modules, g, ext, trace);
      ghost var ds := modules[name].dependencies;
      modules := modules[name := modules[name].(loaded := true, rdeps := {parent})];
      g, ext, trace := With(g, name, ds, {parent}), e0 + {(parent, name)}, trace + [Initialize(name, true)];
      NoteDependency(parent, name);
      MetLoadable(libs, inits, name, parent, need, t0, g0, e0, tr0, modules, g, ext, trace);
    }

    /** Needs the declared dependencies of the loading module `name`, in order;
        when one fails the load is taken back. */
    method LoadDependencies(name: Name, ghost need: Need, parent: Name, inits: set<Name>,
                            ghost t0: Table, ghost g0: Graph, ghost e0: set<Ref>, ghost tr0: seq<Event>)
      returns (ok: bool)
      requires Good(libs, t0, g0, e0, tr0) && Accounted(t0, e0) && parent !in g0.deps
      requires (parent == CORE || parent in t0) && name in libs
      requires Progress(libs, inits, name, 0, t0, g0, e0, tr0, modules, g, ext, trace)
      modifies this
      ensures core == old(core)
      ensures ok ==> Progress(libs, inits, name, |libs[name].dependencies|, t0, g0, e0, tr0, modules, g, ext, trace)
      ensures !ok ==> !Loadable(libs, inits, g0.deps.Keys, Loading(t0, g0), name, need)
      ensures !ok ==> Invariant() && modules == t0 && g == g0 && ext == e0 && Continued(tr0, trace)
      decreases |libs.Keys - t0.Keys|, 1
    {
      hide Good, Loadable, Met, Closure, Progress, Loading, Accounted, Offers;
      ghost var possible := Loadable(libs, inits, g0.deps.Keys, Loading(t0, g0), name, need);
      var dependencies := libs[name].dependencies;
      var i := 0;
      while i < |dependencies|
        invariant i <= |dependencies|
        invariant core == old(core)
        invariant Progress(libs, inits, name, i, t0, g0, e0, tr0, modules, g, ext, trace)
      {
        var d := dependencies[i];
        ProgressAsks(libs, inits, name, i, t0, g0, e0, tr0, modules, g, ext, trace);
        if possible {
          ProgressLoadable(libs, inits, name, need, i, t0, g0, e0, tr0, modules, g, ext, trace);
        }
        ghost var t1, g1, e1, tr1 := modules, g, ext, trace;
        var met := NeedModule(d.name, AtVersion(d.version), name, inits);
        if !met {
          ProgressKept(libs, inits, name, i, t0, g0, e0, tr0, t1, g1, e1, tr1, trace);
          GiveUp(name, parent, i, inits, t0, g0, e0, tr0);
          return false;
        }
        LoadableOffers(libs, inits, g1.deps.Keys, Loading(t1, g1), d);
        ProgressSteps(libs, inits, name, i, t0, g0, e0, tr0, t1, g1, e1, tr1, modules, g, ext, trace);
        i := i + 1;
      }
      ok := true;
    }

    /** Takes back a load that failed after i dependencies. */
    method GiveUp(name: Name, parent: Name, ghost i: nat, ghost inits: set<Name>,
                  ghost t0: Table, ghost g0: Graph, ghost e0: set<Ref>, ghost tr0: seq<Event>)
      requires Good(libs, t0, g0, e0, tr0) && Accounted(t0, e0) && parent !in g0.deps
      requires parent == CORE || parent in t0
      requires Progress(libs, inits, name, i, t0, g0, e0, tr0, modules, g, ext, trace)
      modifies this`modules, this`g, this`ext, this`trace
      ensures Invariant() && modules == t0 && g == g0 && ext == e0 && Continued(tr0, trace)
    {
      hide Good, Progress;
      ProgressStops(libs, inits, name, i, t0, g0, e0, tr0, modules, g, ext, trace);
      ProgressParent(libs, inits, name, i, parent, t0, g0, e0, tr0, modules, g, ext, trace);
      UnneedModule(name, parent);
      assert ext == e0;
      RolledBack(libs, inits, name, i, t0, g0, e0, tr0, old(modules), old(g), old(ext), old(trace),
                 modules, g, trace);
    }
 
    // ----- the operations

    method RequestModule(name: Name, inits: set<Name>) returns (ok: bool)
      requires Valid()
      modifies this
      ensures Valid() && old(trace) <= trace
      ensures ok <==> name != CORE && name !in old(core).dependencies
                      && Loadable(libs, inits, old(modules).Keys, {}, name, AnyVersion)
      ensures name != CORE && name !in old(core).dependencies ==>
                Judged(libs, inits, old(modules).Keys, {}, name, AnyVersion, ok)
      ensures ok ==> modules.Keys == old(modules).Keys + Closure(Declared(libs), name)
      ensures ok ==> core == old(core).(dependencies := old(core).dependencies + {name})
      ensures Sub(old(g).deps, g.deps) && Declares(libs, old(g).deps, g.deps)
      ensures !ok ==> modules == old(modules) && core == old(core) && g == old(g)
    {
      hide Good, Loadable, Closure, Reaches, Judged;
      Judges(libs, inits, modules.Keys, {}, name, AnyVersion);
      if name == CORE {
        return false;
      }
      if name in core.dependencies {
        return false;
      }
      Facts(libs, modules, g, ext, trace);
      Replayed(libs, modules, g, ext, trace);
      assert Loading(modules, g) == {};
      ok := NeedModule(name, AnyVersion, CORE, inits);
      if ok {
        RequestMet(libs, inits, name, old(modules), old(g), old(ext), old(trace), old(core).dependencies,
                   modules, g, ext, trace);
      }
    }

    method RevokeModule(name: Name) returns (ok: bool)
      requires Valid()
      modifies this
      ensures Valid() && old(trace) <= trace
      ensures ok <==> name in old(core).dependencies
      ensures ok ==> core == old(core).(dependencies := old(core).dependencies - {name})
      ensures g == Collect(old(g), RefsFrom(CORE, core.dependencies)) && Sub(g.deps, old(g).deps)
      ensures !ok ==> modules == old(modules) && core == old(core) && g == old(g)
    {
      hide Good;
      Facts(libs, modules, g, ext, trace);
      if name == CORE {
        assert name !in core.dependencies by {
          assert name in core.dependencies ==> (CORE, name) in ext;
        }
        Collected(libs, g, modules, g, ext, trace);
        return false;
      }
      if name !in core.dependencies {
        Collected(libs, g, modules, g, ext, trace);
        return false;
      }
      Held(libs, modules, g, ext, trace, CORE, name);
      RevokedRefs(core.dependencies, name);
      core := core.(dependencies := core.dependencies - {name});
      UnneedModule(name, CORE);
      Collected(libs, old(g), modules, g, ext, trace);
      UnwoundKeys(libs, old(modules), old(g), old(ext), old(trace), modules, g, ext, trace, name);
      ok := true;
    }

    /** Walks the dependencies of `source`; the order is that of a hash table. */
    method CheckModuleDependency(source: Name, target: Name) returns (found: bool)
      requires Invariant() && source in g.deps
      ensures found <==> Reaches(g.deps, source, target)
      decreases |Descendants(g.deps, source)|
    {
      hide Good, Reaches;
      Facts(libs, modules, g, ext, trace);
      SourceFacts(libs, modules, g, ext, trace, source);
      var todo := modules[source].dependencies;
      while todo != {}
        invariant todo <= g.deps[source]
        invariant forall d :: d in g.deps[source] && d !in todo ==> d != target && !Reaches(g.deps, d, target)
      {
        var d :| d in todo;
        EdgeReaches(g.deps, source, d);
        if d == target {
          return true;
        }
        AcyclicStep(libs, modules, g, ext, trace, source, d);
        found := CheckModuleDependency(d, target);
        if found {
          ReachesTransitive(g.deps, source, d, target);
          return true;
        }
        todo := todo - {d};
      }
      if Reaches(g.deps, source, target) {
        var d := ReachesStep(g.deps, source, target);
      }
      found := false;
    }

    /** A dependency is only added between modules of which neither depends on
        the other.  The test lets `source == target` through: the invariant
        survives exactly when that is not the case. */
    method AddModuleRuntimeDependency(source: Name, target: Name) returns (ok: bool)
      requires Valid()
      modifies this`modules, this`g, this`trace
      ensures ok <==> source in old(modules) && target in old(modules)
                      && (Reaches(old(g).deps, source, target) || !Reaches(old(g).deps, target, source))
      ensures if ok && !Reaches(old(g).deps, source, target) then
                modules == Linked(old(modules), source, target) && trace == old(trace) + [Link(source, target)]
              else
                modules == old(modules) && trace == old(trace)
      ensures Valid() <==> !(source == target && source in old(modules))
    {
      if source !in modules {
        return false;
      }
      if target !in modules {
        return false;
      }
      hide Good, Reaches, Linked;
      LoadedNotSelf(libs, modules, g, ext, trace);
      var already := CheckModuleDependency(source, target);
      if already {
        return true;
      }
      var circular := CheckModuleDependency(target, source);
      if circular {
        return false;
      }
      AddEdgeTo(source, target);
      ok := true;
    }

    /** Enters the edge into both tables and counts it. */
    method AddEdgeTo(source: Name, target: Name)
      requires Valid() && source in modules && target in modules && !Reaches(g.deps, source, target)
      modifies this`modules, this`g, this`trace
      ensures modules == Linked(old(modules), source, target) && trace == old(trace) + [Link(source, target)]
      ensures Valid() <==> (source != target && !Reaches(old(g).deps, target, source))
    {
      hide Good, Reaches;
      Facts(libs, modules, g, ext, trace);
      SourceFacts(libs, modules, g, ext, trace, source);
      if target in g.deps[source] {
        EdgeReaches(g.deps, source, target);
      }
      GoodLinked(libs, modules, g, ext, trace, source, target);
      modules := modules[source := modules[source].(dependencies := modules[source].dependencies + {target})];
      modules := modules[target := modules[target].(rdeps := modules[target].rdeps + {source}, rc := modules[target].rc + 1)];
      g, trace := AddEdge(g, source, target), trace + [Link(source, target)];
    }

    /** Unloads everything that needs `name`, then revokes it.  The names of
        the dependents are copied before the loop, so one that went away with
        an earlier one makes the whole call fail.  `order[n]` is the order in
        which the table of dependents of n lists its keys. */
    method ForceUnloadModule(name: Name, order: Order) returns (ok: bool)
      requires Valid() && Complete(libs.Keys, order)
      modifies this
      ensures Valid() && old(trace) <= trace
      ensures core.dependencies <= old(core).dependencies
      ensures g == Collect(old(g), RefsFrom(CORE, core.dependencies)) && Sub(g.deps, old(g).deps)
      ensures Kept(old(g).deps, old(core).dependencies, core.dependencies, name)
      ensures core.dependencies <= modules.Keys && (core.dependencies == {} ==> modules == map[])
      ensures ok ==> name in old(modules) && name !in modules
      ensures ok ==> forall x :: Reaches(old(g).deps, x, name) ==> x !in modules
      ensures ok ==> core.dependencies == Rest(old(g).deps, old(core).dependencies, {name})
      ensures Forced(old(g).deps, old(core).dependencies, name, order, ok, core.dependencies)
      ensures name in old(modules) && Guarded(old(g).deps, old(core).dependencies, name) ==> ok
      decreases |Ancestors(g.deps, name)|
    {
      hide Good, Reaches, Collect, Kept, Guarded, RefsFrom, Ancestors, Forced, Walking, Loaded, Complete, Rest;
      ForceBegins(libs, modules, g, ext, trace, core.dependencies, name);
      if name == CORE || name !in modules {
        NotThere(libs, modules, g, ext, trace, core.dependencies, name, order);
        NothingLeft(libs, modules, g, ext, trace, core.dependencies);
        return false;
      }
      ghost var held0 := core.dependencies;
      WalkFirst(libs, modules, g, ext, trace, held0, name, order);
      WalkKnows(g.deps, held0, held0, name, order, 0, modules[name].rdeps - {CORE});
      var rdeps := modules[name].rdeps;
      var todo := rdeps;
      var i := 0;
      while i < |order[name]|
        invariant Valid() && old(trace) <= trace && todo <= rdeps && i <= |order[name]|
        invariant core.dependencies <= held0
        invariant Sub(g.deps, old(g).deps)
        invariant Kept(old(g).deps, held0, core.dependencies, name)
        invariant forall h :: h in rdeps && h !in todo && h != CORE ==> h !in g.deps
        invariant Walking(old(g).deps, held0, core.dependencies, name, order, i, todo - {CORE})
      {
        var r := order[name][i];
        if r in todo && r != CORE {
          ForceAsks(libs, old(modules), old(g), old(ext), old(trace), g, held0, name, r);
          ghost var g1, held1 := g, core.dependencies;
          HeldLoaded(libs, modules, g, ext, trace, held1);
          OrderCovers(libs, modules, g, ext, trace, order);
          ok := ForceUnloadModule(r, order);
          KeptStep(old(g).deps, g1.deps, held0, held1, core.dependencies, name, r);
          WalkSteps(old(g).deps, g1.deps, held0, held1, name, order, i, todo - {CORE}, ok, core.dependencies);
          if !ok {
            Collected(libs, old(g), modules, g, ext, trace);
            GuardedForces(old(g).deps, held0, name, order, ok, core.dependencies);
            return false;
          }
          assert todo - {CORE} - {r} == todo - {r} - {CORE};
        } else {
          WalkSkips(old(g).deps, held0, core.dependencies, name, order, i, todo - {CORE});
          assert todo - {CORE} == todo - {r} - {CORE};
        }
        i := i + 1;
        todo := todo - {r};
      }
      WalkEnds(old(g).deps, held0, core.dependencies, name, order, i, todo - {CORE});
      assert forall h :: h in todo ==> h in todo - {CORE} || h == CORE;
      GuardedForces(old(g).deps, held0, name, order, true, core.dependencies - {name});
      ForceEnds(libs, old(modules), old(g), old(ext), old(trace), held0,
                modules, g, ext, trace, core.dependencies, name);
      ghost var g1, held1 := g, core.dependencies;
      HeldLoaded(libs, modules, g, ext, trace, core.dependencies);
      if name in modules {
        ok := RevokeModule(name);
      } else {
        ok := true;
      }
      HeldLoaded(libs, modules, g, ext, trace, core.dependencies);
      Collected(libs, old(g), modules, g, ext, trace);
      ForceRevoked(libs, old(g), held0, g1, held1, modules, g, ext, trace, core.dependencies, name);
      NothingLeft(libs, modules, g, ext, trace, core.dependencies);
    }

    method Perform(o: Operation) returns (ok: bool)
      requires Valid() && (o.AddRuntimeDependency? ==> o.source != o.target)
      requires o.ForceUnload? ==> Complete(libs.Keys, o.order)
      modifies this
      ensures Valid() && old(trace) <= trace
    {
      hide Good;
      match o
      case Request(name, inits) => ok := RequestModule(name, inits);
      case Revoke(name) => ok := RevokeModule(name);
      case ForceUnload(name, order) => ok := ForceUnloadModule(name, order);
      case AddRuntimeDependency(source, target) => ok := AddModuleRuntimeDependency(source, target);
    }

    /** Shutting down: everything goes, and both assertions hold. */
    method FreeModules()
      requires Valid()
      modifies this
      ensures Valid() && modules == map[] && core.dependencies == {} && core.rdeps == {}
      ensures old(trace) <= trace && Replay(libs, trace) == map[]
    {
      hide Good;
      Facts(libs, modules, g, ext, trace);
      ReleaseDependencies(CORE, core.dependencies);
      core := core.(dependencies := {});
      assert ext == {};
      Emptied(libs, modules, g, trace);
      UnwoundKeys(libs, old(modules), old(g), old(ext), old(trace), modules, g, ext, trace, CORE);
      assert |core.rdeps| == 0;
      assert |modules| == 0;
    }
  }

  datatype Operation = Request(name: Name, inits: set<Name>) | Revoke(name: Name) | ForceUnload(name: Name, order: Order)
                     | AddRuntimeDependency(source: Name, target: Name)

  /** The forced unload that fails although it unloads everything: c needs a
      and b, both need n, and only c was requested. */
  method UnloadDiamond(manager: Manager, n: Name, a: Name, b: Name, c: Name, order: Order) returns (ok: bool)
    requires manager.Valid() && Complete(manager.libs.Keys, order) && Complete({n, a, b, c}, order)
    requires Four(n, a, b, c) && manager.g.deps == Diamond(n, a, b, c) && manager.core.dependencies == {c}
    modifies manager
    ensures manager.Valid() && !ok && manager.modules == map[]
  {
    hide Good, Kept, Guarded, RefsFrom, Ancestors, Loaded, Complete, Rest, Force, Diamond, Reaches, Collect;
    DiamondFails(n, a, b, c, order);
    ok := manager.ForceUnloadModule(n, order);
  }

  /** Four usable libraries that declare the diamond. */
  function DiamondLibraries(n: Name, a: Name, b: Name, c: Name, v: Version): LibraryMap {
    map[n := Library(v, v, [], true, true, true)]
       [a := Library(v, v, [Dependency(n, v)], true, true, true)]
       [b := Library(v, v, [Dependency(n, v)], true, true, true)]
       [c := Library(v, v, [Dependency(a, v), Dependency(b, v)], true, true, true)]
  }

  lemma DiamondDeclared(n: Name, a: Name, b: Name, c: Name, v: Version)
    requires Four(n, a, b, c) && CORE !in {n, a, b, c}
    ensures var libs := DiamondLibraries(n, a, b, c, v);
            && WellFormed(libs) && libs.Keys == {n, a, b, c} && Declared(libs) == Diamond(n, a, b, c)
            && forall x :: x in libs ==> Usable(libs, x) && Satisfied(libs, x)
  {
    var libs := DiamondLibraries(n, a, b, c, v);
    NamesOf(n, a, b, v);
    DiamondUsable(n, a, b, c, v);
    hide Names, Compare, Usable, Satisfied;
    assert Declared(libs)[n] == {} && Declared(libs)[c] == {a, b};
  }

  lemma DiamondUsable(n: Name, a: Name, b: Name, c: Name, v: Version)
    requires Four(n, a, b, c)
    ensures var libs := DiamondLibraries(n, a, b, c, v); forall x :: x in libs ==> Usable(libs, x) && Satisfied(libs, x)
  {
    hide Compare;
    CompareSelf(v);
  }

  lemma NamesOf(n: Name, a: Name, b: Name, v: Version)
    ensures Names([]) == {} && Names([Dependency(n, v)]) == {n}
    ensures Names([Dependency(a, v), Dependency(b, v)]) == {a, b}
  {
    var ds := [Dependency(a, v), Dependency(b, v)];
    assert ds[0].name == a && ds[1].name == b;
  }

  lemma CompareSelf(v: Version)
    ensures Compare(v, v) == 0
  {}

  lemma DiamondLoadable(n: Name, a: Name, b: Name, c: Name, v: Version)
    requires Four(n, a, b, c) && CORE !in {n, a, b, c}
    ensures Closure(Diamond(n, a, b, c), c) == {n, a, b, c}
    ensures Loadable(DiamondLibraries(n, a, b, c, v), {n, a, b, c}, {}, {}, c, AnyVersion)
  {
    var libs := DiamondLibraries(n, a, b, c, v);
    DiamondDeclared(n, a, b, c, v);
    DiamondFacts(n, a, b, c);
    DiamondClosure(n, a, b, c);
    hide Reaches, Usable, Satisfied, DiamondLibraries, Diamond, Closure, Dependents, AtOrAbove;
    assert Offers(libs, c, AnyVersion);
  }

  lemma DiamondClosure(n: Name, a: Name, b: Name, c: Name)
    requires Four(n, a, b, c)
    ensures Closure(Diamond(n, a, b, c), c) == {n, a, b, c}
  {
    var e := Diamond(n, a, b, c);
    DiamondFacts(n, a, b, c);
    InClosure(e, c, n);
    InClosure(e, c, a);
    InClosure(e, c, b);
    hide Reaches, Dependents;
    assert Ends(e) <= {n, a, b, c};
  }

  /** A run that gets there: the top is requested, everything is loaded, the
      forced unload of the bottom empties the table and reports failure. */
  method DiamondRun(n: Name, a: Name, b: Name, c: Name, v: Version, order: Order)
    returns (manager: Manager, requested: bool, unloaded: bool)
    requires Four(n, a, b, c) && CORE !in {n, a, b, c} && Complete({n, a, b, c}, order)
    ensures manager.Valid() && requested && !unloaded && manager.modules == map[]
  {
    hide Good, Loadable, Closure, Reaches, Usable, Satisfied, Diamond, Complete, Replay, Collect;
    DiamondDeclared(n, a, b, c, v);
    DiamondLoadable(n, a, b, c, v);
    manager := new Manager(DiamondLibraries(n, a, b, c, v));
    NothingUp(manager.libs, manager.modules, manager.g, manager.ext, manager.trace);
    assert manager.modules.Keys == {} && manager.core.dependencies == {};
    requested := manager.RequestModule(c, {n, a, b, c});
    assert manager.modules.Keys == {n, a, b, c};
    assert manager.g.deps.Keys == {n, a, b, c};
    DiamondLoaded(manager.libs, manager.g.deps, n, a, b, c);
    unloaded := UnloadDiamond(manager, n, a, b, c, order);
  }

  lemma NothingUp(libs: LibraryMap, t: Table, g: Graph, ext: set<Ref>, trace: seq<Event>)
    requires Good(libs, t, g, ext, trace) && t == map[]
    ensures g.deps == map[]
  {
    hide Ordered, Replay;
  }

  lemma DiamondLoaded(libs: LibraryMap, e: Adj, n: Name, a: Name, b: Name, c: Name)
    requires libs.Keys == {n, a, b, c} && Declared(libs) == Diamond(n, a, b, c)
    requires e.Keys == {n, a, b, c} && Declares(libs, map[], e)
    ensures e == Diamond(n, a, b, c)
  {
    hide Diamond;
    forall x | x in e
      ensures e[x] == Declared(libs)[x]
    {}
  }

  /** A whole life of the manager, from start to shutdown: whatever is asked of
      it, initializers and finalizers run in order, and at the end everything
      that was initialized has been finalized. */
  method Life(libs: LibraryMap, operations: seq<Operation>) returns (manager: Manager)
    requires WellFormed(libs)
    requires forall o :: o in operations && o.AddRuntimeDependency? ==> o.source != o.target
    requires forall o :: o in operations && o.ForceUnload? ==> Complete(libs.Keys, o.order)
    ensures manager.modules == map[] && manager.core.dependencies == {} && manager.core.rdeps == {}
    ensures Ordered(libs, manager.trace) && Replay(libs, manager.trace) == map[]
  {
    manager := new Manager(libs);
    for i := 0 to |operations|
      invariant manager.Valid() && manager.libs == libs && fresh(manager)
    {
      assert operations[i] in operations;
      var _ := manager.Perform(operations[i]);
    }
    manager.FreeModules();
  }
}
