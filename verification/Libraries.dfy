/** Version numbers, compared as in src/version.c. */
module Versions {
  import opened Basics

  datatype Version = Version(major: Int, minor: Int, patch: Int)

  /** An int difference of the first fields that differ. */
  function Compare(a: Version, b: Version): int {
    if a.major == b.major then
      if a.minor == b.minor then
        if a.patch == b.patch then 0
        else ToInt(a.patch - b.patch)
      else ToInt(a.minor - b.minor)
    else ToInt(a.major - b.major)
  }

  /** Some field is smaller and all fields in front of it are equal. */
  ghost predicate Before(a: Version, b: Version) {
    || a.major < b.major
    || (a.major == b.major && a.minor < b.minor)
    || (a.major == b.major && a.minor == b.minor && a.patch < b.patch)
  }

  /** How far apart the first fields that differ are. */
  function Gap(a: Version, b: Version): int {
    if a.major != b.major then a.major - b.major
    else if a.minor != b.minor then a.minor - b.minor
    else a.patch - b.patch
  }

  /** Two versions compare in lexicographic order if and only if that distance
      is an int. */
  lemma CompareExactly(a: Version, b: Version)
    ensures Compare(a, b) == 0 <==> a == b
    ensures IsInt(Gap(a, b)) <==> (Compare(a, b) < 0 <==> Before(a, b)) && (Compare(a, b) > 0 <==> Before(b, a))
  {
    DifferenceSign(a.major, b.major);
    DifferenceSign(a.minor, b.minor);
    DifferenceSign(a.patch, b.patch);
  }

  lemma BeforeOnce(a: Version, b: Version)
    ensures if a == b then !Before(a, b) && !Before(b, a) && Gap(a, b) == 0 else Before(a, b) <==> !Before(b, a)
  {}

  /** Without negative fields the comparison is the lexicographic order. */
  lemma CompareIsLexicographic(a: Version, b: Version, c: Version)
    requires forall v :: v in {a, b, c} ==> v.major >= 0 && v.minor >= 0 && v.patch >= 0
    ensures Compare(a, b) < 0 <==> Before(a, b)
    ensures Compare(a, b) > 0 <==> Before(b, a)
    ensures Compare(a, b) <= 0 && Compare(b, c) <= 0 ==> Compare(a, c) <= 0
  {
    assert a in {a, b, c} && b in {a, b, c} && c in {a, b, c};
    CompareExactly(a, b);
    CompareExactly(b, c);
    CompareExactly(a, c);
  }

  /** With a negative field a newer version can compare as older. */
  lemma CompareWraps()
    ensures var a, b := Version(INT_MAX, 0, 0), Version(-1, 0, 0);
            Before(b, a) && Compare(a, b) < 0
  {}
}

module Libraries {
  import opened Basics
  import opened Graphs
  import opened Versions

  const CORE: Name := "core"

  datatype Dependency = Dependency(name: Name, version: Version)

  /** What `needModule` finds out about a library.  A name that is not in the
      map is one that cannot be opened at all. */
  datatype Library = Library(
    version: Version,
    bcversion: Version,
    dependencies: seq<Dependency>,
    complete: bool,       // all six meta functions are there
    resolves: bool,       // the second, non-lazy opening succeeds
    initializer: bool)    // there is an initializer

  datatype Need = AnyVersion | AtVersion(version: Version)

  type LibraryMap = map<Name, Library>

  function Names(ds: seq<Dependency>): set<Name> {
    set d | d in ds :: d.name
  }

  ghost function Declared(libs: LibraryMap): Adj {
    map n | n in libs :: Names(libs[n].dependencies)
  }

  /** There is no library called core, and no library lists a name twice. */
  ghost predicate WellFormed(libs: LibraryMap) {
    && CORE !in libs
    && forall n :: n in libs ==> Distinct(libs[n].dependencies)
  }

  ghost predicate Distinct(ds: seq<Dependency>) {
    forall i, j :: 0 <= i < j < |ds| ==> ds[i].name != ds[j].name
  }

  ghost predicate Usable(libs: LibraryMap, n: Name) {
    n in libs && libs[n].complete && libs[n].resolves && libs[n].initializer
  }

  predicate Compatible(version: Version, bcversion: Version, need: Need) {
    need.AtVersion? ==> Compare(need.version, bcversion) >= 0 && Compare(need.version, version) <= 0
  }

  ghost predicate Offers(libs: LibraryMap, n: Name, need: Need) {
    n in libs && Compatible(libs[n].version, libs[n].bcversion, need)
  }

  /** Every declared dependency of n names a library that offers the version. */
  ghost predicate Satisfied(libs: LibraryMap, n: Name)
    requires n in libs
  {
    forall d :: d in libs[n].dependencies ==> Offers(libs, d.name, AtVersion(d.version))
  }

  /** The loaded modules come from usable libraries, have at least the edges
      those declare, and every declared edge satisfies the version range. */
  ghost predicate Consistent(libs: LibraryMap, e: Adj) {
    forall n :: n in e ==>
      Usable(libs, n) && Satisfied(libs, n) && Names(libs[n].dependencies) <= e[n]
  }

  /** What the check of a declared dependency of a loaded module achieves: on
      each side the version lies in the range of the library, in lexicographic
      order, if and only if the two fields that decide are apart by an int. */
  lemma InRangeExactly(libs: LibraryMap, e: Adj, n: Name, d: Dependency)
    requires Consistent(libs, e) && n in e && d in libs[n].dependencies
    ensures d.name in libs
    ensures !Before(d.version, libs[d.name].bcversion) <==> IsInt(Gap(d.version, libs[d.name].bcversion))
    ensures !Before(libs[d.name].version, d.version) <==> IsInt(Gap(d.version, libs[d.name].version))
  {
    assert Offers(libs, d.name, AtVersion(d.version));
    hide Compare, Before, Gap;
    CompareExactly(d.version, libs[d.name].bcversion);
    CompareExactly(d.version, libs[d.name].version);
    BeforeOnce(d.version, libs[d.name].bcversion);
    BeforeOnce(d.version, libs[d.name].version);
  }

  /** The whole condition for loading `name` on top of the modules `loaded`
      while the modules `loading` are under way; `inits` are the modules whose
      initializers would report success. */
  ghost predicate Loadable(libs: LibraryMap, inits: set<Name>, loaded: set<Name>, loading: set<Name>,
                           name: Name, need: Need)
  {
    && Offers(libs, name, need)
    && Closure(Declared(libs), name) !! loading
    && forall n :: n in Closure(Declared(libs), name) ==>
         && Usable(libs, n)
         && Satisfied(libs, n)
         && (n in loaded || n in inits)
         && !Reaches(Declared(libs), n, n)
  }

  // ----- the same condition, in lexicographic order

  /** The version lies between the library's compatible version and its own. */
  ghost predicate InRange(lib: Library, need: Need) {
    need.AtVersion? ==> !Before(need.version, lib.bcversion) && !Before(lib.version, need.version)
  }

  /** The fields that decide are apart by an int. */
  predicate Near(lib: Library, need: Need) {
    need.AtVersion? ==> IsInt(Gap(need.version, lib.bcversion)) && IsInt(Gap(need.version, lib.version))
  }

  /** A version is accepted exactly when it lies in the range, and any version
      is where none is asked for. */
  lemma AcceptedExactly(lib: Library, need: Need)
    requires Near(lib, need)
    ensures Compatible(lib.version, lib.bcversion, need) <==> InRange(lib, need)
  {
    hide Compare, Before, Gap;
    if need.AtVersion? {
      CompareExactly(need.version, lib.bcversion);
      CompareExactly(need.version, lib.version);
      BeforeOnce(need.version, lib.bcversion);
      BeforeOnce(need.version, lib.version);
    }
  }

  /** All declared versions can be compared with those they are for. */
  ghost predicate Spaced(libs: LibraryMap) {
    forall n, d :: n in libs && d in libs[n].dependencies && d.name in libs ==> Near(libs[d.name], AtVersion(d.version))
  }

  predicate NotNegative(v: Version) {
    v.major >= 0 && v.minor >= 0 && v.patch >= 0
  }

  lemma NotNegativeSpaced(libs: LibraryMap)
    requires forall n :: n in libs ==> NotNegative(libs[n].version) && NotNegative(libs[n].bcversion)
    requires forall n, d :: n in libs && d in libs[n].dependencies ==> NotNegative(d.version)
    ensures Spaced(libs)
  {}

  /** Apart from versions, what the closure of `name` needs to be loaded: all
      libraries are there with their functions and an initializer that works,
      no cycle is declared and nothing in it is under way. */
  ghost predicate Startable(libs: LibraryMap, inits: set<Name>, loaded: set<Name>, loading: set<Name>, name: Name) {
    forall n :: n in Closure(Declared(libs), name) ==>
      && n in libs && libs[n].complete && libs[n].resolves && libs[n].initializer
      && (n in loaded || n in inits)
      && n !in loading && !Reaches(Declared(libs), n, n)
  }

  /** Every version declared in the closure lies in the range of its library. */
  ghost predicate AllInRange(libs: LibraryMap, name: Name) {
    forall n, d :: n in Closure(Declared(libs), name) && n in libs && d in libs[n].dependencies && d.name in libs ==>
      InRange(libs[d.name], AtVersion(d.version))
  }

  /** Nothing but that decides: with versions that can be compared, a module is
      loadable exactly when its closure can be started, its own version is in
      range and so is every version declared in the closure. */
  lemma LoadableExactly(libs: LibraryMap, inits: set<Name>, loaded: set<Name>, loading: set<Name>, name: Name, need: Need)
    requires Spaced(libs) && (name in libs ==> Near(libs[name], need))
    ensures Loadable(libs, inits, loaded, loading, name, need) <==>
            Startable(libs, inits, loaded, loading, name) && name in libs && InRange(libs[name], need) && AllInRange(libs, name)
  {
    hide Reaches, Compatible, InRange, Near, Closure;
    InClosure(Declared(libs), name, name);
    if name in libs { AcceptedExactly(libs[name], need); }
    forall n, d | n in Closure(Declared(libs), name) && n in libs && d in libs[n].dependencies
      ensures d.name in Closure(Declared(libs), name)
      ensures d.name in libs ==>
                (Offers(libs, d.name, AtVersion(d.version)) <==> InRange(libs[d.name], AtVersion(d.version)))
    {
      ClosureNext(libs, name, n, d);
      if d.name in libs { AcceptedExactly(libs[d.name], AtVersion(d.version)); }
    }
  }

  /** What loading `name` comes to, told in lexicographic order. */
  ghost predicate Judged(libs: LibraryMap, inits: set<Name>, loaded: set<Name>, loading: set<Name>, name: Name, need: Need,
                         ok: bool)
  {
    Spaced(libs) && (name in libs ==> Near(libs[name], need)) ==>
      (ok <==> Startable(libs, inits, loaded, loading, name)
               && name in libs && InRange(libs[name], need) && AllInRange(libs, name))
  }

  lemma Judges(libs: LibraryMap, inits: set<Name>, loaded: set<Name>, loading: set<Name>, name: Name, need: Need)
    ensures Judged(libs, inits, loaded, loading, name, need, Loadable(libs, inits, loaded, loading, name, need))
    ensures Loadable(libs, inits, loaded, loading, name, need) ==> name in libs
  {
    hide Spaced, Near, Startable, InRange, AllInRange;
    if Spaced(libs) && (name in libs ==> Near(libs[name], need)) {
      LoadableExactly(libs, inits, loaded, loading, name, need);
    }
  }

  lemma ClosureNext(libs: LibraryMap, name: Name, n: Name, d: Dependency)
    requires n in Closure(Declared(libs), name) && n in libs && d in libs[n].dependencies
    ensures d.name in Closure(Declared(libs), name)
  {
    var e := Declared(libs);
    assert d.name in Names(libs[n].dependencies);
    EdgeReaches(e, n, d.name);
    if n != name { ReachesTransitive(e, name, n, d.name); }
    InClosure(e, name, d.name);
  }

  /** An older version that the library still supports is accepted. */
  lemma OlderAccepted()
    ensures Compatible(Version(0, 4, 2), Version(0, 1, 1), AtVersion(Version(0, 2, 1)))
  {}

  lemma DeclaredEdge(libs: LibraryMap, n: Name, d: Dependency)
    requires n in libs && d in libs[n].dependencies
    ensures d.name in Declared(libs)[n]
    ensures Closure(Declared(libs), d.name) <= Closure(Declared(libs), n)
  {
    assert d.name in Names(libs[n].dependencies);
    ClosureStep(Declared(libs), n, d.name);
  }

  /** What is loadable has loadable dependencies, and stays out of their way. */
  lemma LoadableDependency(libs: LibraryMap, inits: set<Name>, loaded: set<Name>, loaded1: set<Name>,
                           loading: set<Name>, name: Name, need: Need, d: Dependency)
    requires Loadable(libs, inits, loaded, loading, name, need)
    requires loaded <= loaded1 && d in libs[name].dependencies
    ensures Loadable(libs, inits, loaded1, loading + {name}, d.name, AtVersion(d.version))
  {
    var e := Declared(libs);
    DeclaredEdge(libs, name, d);
    EdgeReaches(e, name, d.name);
    assert name in Closure(e, name);
    if name in Closure(e, d.name) {
      if name != d.name {
        ReachesTransitive(e, name, d.name, name);
      }
      assert false;
    }
  }

  /** Declared walks from a loaded module stay among the loaded ones. */
  lemma DeclaredReaches(libs: LibraryMap, e: Adj, a: Name, b: Name)
    requires Consistent(libs, e) && Closed(e) && a in e && Reaches(Declared(libs), a, b)
    ensures b in e && Reaches(e, a, b)
  {
    var p :| PathBetween(Declared(libs), a, p, b);
    forall i: nat | i < |p|
      ensures p[i] in e
    {
      DeclaredPath(libs, e, p, i);
    }
    forall i | 0 <= i < |p| - 1
      ensures p[i] in e && p[i + 1] in e[p[i]]
    {
      assert p[i + 1] in Declared(libs)[p[i]];
    }
    assert PathBetween(e, a, p, b);
  }

  lemma DeclaredPath(libs: LibraryMap, e: Adj, p: seq<Name>, i: nat)
    requires Consistent(libs, e) && Closed(e) && Path(Declared(libs), p) && p[0] in e && i < |p|
    ensures p[i] in e
  {
    if i > 0 {
      DeclaredPath(libs, e, p, i - 1);
      assert p[i - 1 + 1] in Declared(libs)[p[i - 1]];
    }
  }

  /** The other direction: whatever got loaded was loadable. */
  lemma LoadedIsLoadable(libs: LibraryMap, inits: set<Name>, loaded: set<Name>, loading: set<Name>,
                         e: Adj, name: Name, need: Need)
    requires Consistent(libs, e) && Closed(e) && Acyclic(e) && name in e && Offers(libs, name, need)
    requires e.Keys !! loading
    requires forall n :: n in e ==> n in loaded || n in inits
    ensures Loadable(libs, inits, loaded, loading, name, need)
    ensures Closure(Declared(libs), name) <= e.Keys
  {
    forall n | n in Closure(Declared(libs), name)
      ensures n in e && !Reaches(Declared(libs), n, n)
    {
      if n != name {
        DeclaredReaches(libs, e, name, n);
      }
      if Reaches(Declared(libs), n, n) {
        DeclaredReaches(libs, e, n, n);
      }
    }
  }
}

/** What happens to the modules in the course of a run: the calls into their
    libraries and the edges added while they are loaded. */
module Traces {
  import opened Graphs
  import opened Libraries

  datatype Event =
    | Initialize(name: Name, success: bool)
    | Finalize(name: Name)
    | Link(source: Name, target: Name)

  /** The modules that are up after the events, with their edges. */
  ghost function Replay(libs: LibraryMap, t: seq<Event>): Adj {
    if t == [] then map[] else Step(libs, Replay(libs, t[..|t| - 1]), t[|t| - 1])
  }

  ghost function Step(libs: LibraryMap, up: Adj, e: Event): Adj {
    match e
    case Initialize(n, success) => if success && n in libs then up[n := Names(libs[n].dependencies)] else up
    case Finalize(n) => up - {n}
    case Link(s, d) => if s in up then up[s := up[s] + {d}] else up
  }

  /** When a call may be made: an initializer with all declared dependencies
      up, a finalizer with everything the module depends on still up and
      nothing up that depends on the module. */
  ghost predicate Allowed(libs: LibraryMap, up: Adj, e: Event) {
    match e
    case Initialize(n, _) => n in libs && n !in up && Names(libs[n].dependencies) <= up.Keys
    case Finalize(n) => n in up && up[n] <= up.Keys && forall k :: k in up ==> n !in up[k]
    case Link(s, d) => s in up && d in up
  }

  ghost predicate Ordered(libs: LibraryMap, t: seq<Event>) {
    forall i :: 0 <= i < |t| ==> Allowed(libs, Replay(libs, t[..i]), t[i])
  }

  lemma Extend(libs: LibraryMap, t: seq<Event>, e: Event)
    ensures Replay(libs, t + [e]) == Step(libs, Replay(libs, t), e)
    ensures Ordered(libs, t) && Allowed(libs, Replay(libs, t), e) ==> Ordered(libs, t + [e])
  {
    var t1 := t + [e];
    assert t1[..|t|] == t;
    assert forall i :: 0 <= i < |t| ==> t1[..i] == t[..i];
  }

  /** More calls, and no edge added at runtime. */
  predicate Continued(t: seq<Event>, t1: seq<Event>) {
    t <= t1 && forall i :: |t| <= i < |t1| ==> !t1[i].Link?
  }

  lemma ContinuedNext(t: seq<Event>, t1: seq<Event>, e: Event)
    requires Continued(t, t1) && !e.Link?
    ensures Continued(t, t1 + [e])
  {}

  /** What came up meanwhile has exactly the declared edges. */
  lemma {:induction false} ContinuedEdges(libs: LibraryMap, t: seq<Event>, t1: seq<Event>, n: Name)
    requires Continued(t, t1) && n in Replay(libs, t1)
    ensures || (n in Replay(libs, t) && Replay(libs, t1)[n] == Replay(libs, t)[n])
            || (n in libs && Replay(libs, t1)[n] == Names(libs[n].dependencies))
    decreases |t1|
  {
    if t1 == t { return; }
    var t0 := t1[..|t1| - 1];
    assert forall i :: |t| <= i < |t0| ==> t0[i] == t1[i];
    assert !t1[|t1| - 1].Link?;
    if n in Replay(libs, t0) { ContinuedEdges(libs, t, t0, n); }
  }

  /** Step j is the first finalizer of n after step i. */
  ghost predicate Finalizes(t: seq<Event>, i: nat, n: Name, j: nat) {
    i < j < |t| && t[j] == Finalize(n) && forall k :: i < k < j ==> t[k] != Finalize(n)
  }

  lemma {:induction false} StaysUp(libs: LibraryMap, t: seq<Event>, i: nat, n: Name, m: nat)
    requires n in libs && i < m <= |t| && t[i] == Initialize(n, true)
    requires forall k :: i < k < m ==> t[k] != Finalize(n)
    ensures n in Replay(libs, t[..m])
  {
    assert t[..m][..m - 1] == t[..m - 1];
    if m > i + 1 {
      StaysUp(libs, t, i, n, m - 1);
    }
  }

  /** When nothing is up at the end, every module whose initializer succeeded
      has been finalized, and was not initialized again before that. */
  lemma {:induction false} InitializedIsFinalized(libs: LibraryMap, t: seq<Event>, i: nat, n: Name) returns (j: nat)
    requires Ordered(libs, t) && Replay(libs, t) == map[]
    requires i < |t| && t[i] == Initialize(n, true)
    ensures Finalizes(t, i, n, j) && forall k, b :: i < k < j ==> t[k] != Initialize(n, b)
  {
    hide Replay;
    InitializedKnown(libs, t, i, n);
    assert t[..|t|] == t;
    j := i + 1;
    while j < |t| && t[j] != Finalize(n)
      invariant i < j <= |t| && forall k :: i < k < j ==> t[k] != Finalize(n)
    {
      j := j + 1;
    }
    if j == |t| {
      StaysUp(libs, t, i, n, j);
    }
    forall k | i < k < j
      ensures !t[k].Initialize? || t[k].name != n
    {
      StaysUp(libs, t, i, n, k);
      NotUpTwice(libs, t, k, n);
    }
  }

  lemma InitializedKnown(libs: LibraryMap, t: seq<Event>, i: nat, n: Name)
    requires Ordered(libs, t) && i < |t| && t[i] == Initialize(n, true)
    ensures n in libs
  {
    assert Allowed(libs, Replay(libs, t[..i]), t[i]);
  }

  lemma NotUpTwice(libs: LibraryMap, t: seq<Event>, k: nat, n: Name)
    requires Ordered(libs, t) && k < |t| && n in Replay(libs, t[..k])
    ensures !t[k].Initialize? || t[k].name != n
  {
    hide Replay;
    assert Allowed(libs, Replay(libs, t[..k]), t[k]);
  }
}
