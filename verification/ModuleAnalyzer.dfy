/** The build-time counterpart in util/modules/modules.py: which modules a
    module needs, computed from the declarations alone. */
module ModuleAnalyzer {
  import opened Graphs
  import opened Libraries

  /** What a call comes back with: a set of names, the ValueError for a module
      that does not exist, or the error raised when the stack is exhausted. */
  datatype Outcome = Found(names: set<Name>) | Missing(name: Name) | TooDeep

  /** The declarations below `name` are complete and free of cycles. */
  ghost predicate Sound(libs: LibraryMap, name: Name) {
    forall n :: n in Closure(Declared(libs), name) ==> n in libs && !Reaches(Declared(libs), n, n)
  }

  lemma ClosureSplits(e: Adj, a: Name, n: Name) returns (c: Name)
    requires n in Closure(e, a) && n != a
    ensures a in e && c in e[a] && n in Closure(e, c)
  {
    c := ReachesStep(e, a, n);
    if c != n {
      ReachesEnds(e, c, n);
    }
  }

  lemma SoundBelow(libs: LibraryMap, name: Name, d: Name)
    requires Sound(libs, name) && name in libs && d in Declared(libs)[name]
    ensures Sound(libs, d)
    ensures |Closure(Declared(libs), d)| < |Closure(Declared(libs), name)|
  {
    var e := Declared(libs);
    ClosureStep(e, name, d);
    EdgeReaches(e, name, d);
    assert name in Closure(e, name);
    if name in Closure(e, d) && name != d {
      ReachesTransitive(e, name, d, name);
    }
    Smaller(Closure(e, d), Closure(e, name), name);
  }

  lemma SoundAbove(libs: LibraryMap, name: Name)
    requires name in libs && forall d :: d in Declared(libs)[name] ==> Sound(libs, d)
    ensures Sound(libs, name)
  {
    var e := Declared(libs);
    forall n | n in Closure(e, name)
      ensures n in libs && !Reaches(e, n, n)
    {
      if n != name {
        var c := ClosureSplits(e, name, n);
      } else if Reaches(e, name, name) {
        var c := ReachesStep(e, name, name);
        InClosure(e, c, name);
      }
    }
  }

  lemma ClosureIsUnion(e: Adj, a: Name, all: set<Name>)
    requires a in e && a in all
    requires forall d :: d in e[a] ==> Closure(e, d) <= all
    requires forall n :: n in all && n != a ==> exists d :: d in e[a] && n in Closure(e, d)
    ensures all == Closure(e, a)
  {
    forall n | n in Closure(e, a)
      ensures n in all
    {
      if n != a {
        var c := ClosureSplits(e, a, n);
      }
    }
    forall n | n in all && n != a
      ensures n in Closure(e, a)
    {
      var d :| d in e[a] && n in Closure(e, d);
      ClosureStep(e, a, d);
    }
  }

  /** The plain recursion of the original, without a record of what was seen:
      on a cycle it runs until the stack, `depth` calls deep, is exhausted. */
  method TransitiveDeps(libs: LibraryMap, name: Name, depth: nat) returns (r: Outcome)
    ensures r.Found? ==> r.names == Closure(Declared(libs), name) && Sound(libs, name)
    ensures Sound(libs, name) && depth >= |Closure(Declared(libs), name)| ==> r.Found?
    ensures r.Missing? ==> r.name in Closure(Declared(libs), name) && r.name !in libs
    decreases depth
  {
    hide Sound, Closure;
    if depth == 0 {
      NotEmpty(Declared(libs), name);
      return TooDeep;
    }
    InOwnClosure(libs, name);
    if name !in libs {
      return Missing(name);
    }
    ghost var e := Declared(libs);
    var deps := Names(libs[name].dependencies);
    var result := {name};
    var todo := deps;
    while todo != {}
      invariant todo <= deps && name in result
      invariant forall d :: d in deps && d !in todo ==> Closure(e, d) <= result && Sound(libs, d)
      invariant forall n :: n in result && n != name ==> exists d :: d in deps && n in Closure(e, d)
    {
      var d :| d in todo;
      r := TransitiveDeps(libs, d, depth - 1);
      ClosureStep(e, name, d);
      if Sound(libs, name) {
        SoundBelow(libs, name, d);
      }
      if !r.Found? {
        return r;
      }
      result := result + r.names;
      todo := todo - {d};
    }
    ClosureIsUnion(e, name, result);
    SoundAbove(libs, name);
    r := Found(result);
  }

  lemma NotEmpty(e: Adj, name: Name)
    ensures |Closure(e, name)| > 0
  {
    assert name in Closure(e, name);
  }

  lemma InOwnClosure(libs: LibraryMap, name: Name)
    ensures name in Closure(Declared(libs), name)
    ensures Sound(libs, name) ==> name in libs
  {}

  ghost function ClosureOf(libs: LibraryMap, names: set<Name>): set<Name> {
    set n, c | n in names && c in Closure(Declared(libs), n) :: c
  }

  /** The modules to build for a set of wanted modules. */
  method ExpandRuntimeDeps(libs: LibraryMap, names: set<Name>, depth: nat) returns (r: Outcome)
    ensures r.Found? ==> r.names == ClosureOf(libs, names)
    ensures (forall n :: n in names ==> Sound(libs, n) && depth >= |Closure(Declared(libs), n)|) ==> r.Found?
  {
    hide Sound, Closure;
    var result: set<Name> := {};
    var todo := names;
    while todo != {}
      invariant todo <= names
      invariant result == ClosureOf(libs, names - todo)
    {
      var n :| n in todo;
      r := TransitiveDeps(libs, n, depth);
      if !r.Found? {
        return r;
      }
      ClosureOfMore(libs, names - todo, n);
      result := result + r.names;
      todo := todo - {n};
      assert names - todo == names - (todo + {n}) + {n};
    }
    assert names - todo == names;
    r := Found(result);
  }

  lemma ClosureOfMore(libs: LibraryMap, names: set<Name>, n: Name)
    ensures ClosureOf(libs, names + {n}) == ClosureOf(libs, names) + Closure(Declared(libs), n)
  {
    hide Closure;
  }

  /** The modules built for a request are exactly those its loading puts into
      an empty table: what is loadable is sound, so both computations agree. */
  lemma LoadableIsSound(libs: LibraryMap, inits: set<Name>, loaded: set<Name>, loading: set<Name>,
                        name: Name, need: Need)
    requires Loadable(libs, inits, loaded, loading, name, need)
    ensures Sound(libs, name)
  {}
}
