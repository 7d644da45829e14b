/** What src/module.c:324-360 does to the set of modules that the core holds,
    for every order in which the hash tables may list their keys. */
module ForcedUnloads {
  import opened Graphs
  import opened RefCounts

  /** The order in which the table of dependents of a module is walked. */
  type Order = map<Name, seq<Name>>

  ghost predicate Complete(names: set<Name>, order: Order) {
    forall n, r :: n in names && r in names ==> n in order && r in order[n]
  }

  ghost predicate AtOrAbove(e: Adj, x: Name, n: Name) {
    x == n || Reaches(e, x, n)
  }

  /** A module is loaded while the core holds something at or above it. */
  ghost predicate Loaded(e: Adj, held: set<Name>, x: Name) {
    x in e && exists h :: h in held && AtOrAbove(e, h, x)
  }

  ghost function Dependents(e: Adj, n: Name): set<Name> {
    set r | r in e && n in e[r]
  }

  /** The dependents that are loaded. */
  ghost function Listed(e: Adj, held: set<Name>, n: Name): set<Name> {
    set r | r in Dependents(e, n) && Loaded(e, held, r)
  }

  /** What the core still holds when everything at or above `gone` is gone. */
  ghost function Rest(e: Adj, held: set<Name>, gone: set<Name>): set<Name> {
    set h | h in held && forall s :: s in gone ==> !AtOrAbove(e, h, s)
  }

  datatype Outcome = Outcome(ok: bool, held: set<Name>)

  /** Unloads n by force: first, in turn, the dependents that are loaded. */
  ghost function Force(e: Adj, held: set<Name>, n: Name, order: Order): Outcome
    requires Acyclic(e) && Complete(e.Keys, order)
    decreases |Ancestors(e, n)|, 1, 0
  {
    if !Loaded(e, held, n) then Outcome(false, held)
    else
      var r := ForceAll(e, held, n, order[n], Listed(e, held, n), order);
      if r.ok then Outcome(true, r.held - {n}) else r
  }

  ghost function ForceAll(e: Adj, held: set<Name>, n: Name, ks: seq<Name>, todo: set<Name>, order: Order): Outcome
    requires Acyclic(e) && Complete(e.Keys, order) && todo <= Dependents(e, n)
    decreases |Ancestors(e, n)|, 0, |ks|
  {
    if ks == [] then Outcome(true, held)
    else if ks[0] !in todo then ForceAll(e, held, n, ks[1..], todo, order)
    else
      AncestorsShrink(e, e, ks[0], n);
      var r := Force(e, held, ks[0], order);
      if r.ok then ForceAll(e, r.held, n, ks[1..], todo - {ks[0]}, order) else r
  }

  // ----- what is held afterwards

  lemma AboveDependent(e: Adj, h: Name, n: Name) returns (r: Name)
    requires Reaches(e, h, n)
    ensures r in Dependents(e, n) && AtOrAbove(e, h, r)
  {
    var p :| PathBetween(e, h, p, n);
    r := p[|p| - 2];
    assert p[|p| - 2 + 1] in e[r];
    if |p| > 2 {
      var q := p[..|p| - 1];
      assert forall i :: 0 <= i < |q| ==> q[i] == p[i];
      assert PathBetween(e, h, q, r);
    }
  }

  lemma AboveTransitive(e: Adj, a: Name, b: Name, c: Name)
    requires AtOrAbove(e, a, b) && AtOrAbove(e, b, c)
    ensures AtOrAbove(e, a, c)
  {
    if a != b && b != c { ReachesTransitive(e, a, b, c); }
  }

  lemma AboveBelow(e: Adj, h: Name, r: Name, n: Name)
    requires r in Dependents(e, n) && AtOrAbove(e, h, r)
    ensures AtOrAbove(e, h, n)
  {
    EdgeReaches(e, r, n);
    AboveTransitive(e, h, r, n);
  }

  lemma RestRest(e: Adj, held: set<Name>, a: set<Name>, b: set<Name>)
    ensures Rest(e, Rest(e, held, a), b) == Rest(e, held, a + b)
  {}

  lemma RestOfDependents(e: Adj, held: set<Name>, n: Name)
    ensures Rest(e, held, Listed(e, held, n)) - {n} == Rest(e, held, {n})
  {
    hide Reaches;
    forall h | h in held
      ensures h in Rest(e, held, Listed(e, held, n)) - {n} <==> h in Rest(e, held, {n})
    {
      if Reaches(e, h, n) {
        var r := AboveDependent(e, h, n);
        assert r in Listed(e, held, n);
      }
      forall s | s in Listed(e, held, n) && AtOrAbove(e, h, s)
        ensures AtOrAbove(e, h, n)
      {
        AboveBelow(e, h, s, n);
      }
    }
  }

  /** A success takes from the core exactly what is at or above the target. */
  lemma {:induction false} ForceHeld(e: Adj, held: set<Name>, n: Name, order: Order)
    requires Acyclic(e) && Complete(e.Keys, order) && Force(e, held, n, order).ok
    ensures Force(e, held, n, order).held == Rest(e, held, {n})
    decreases |Ancestors(e, n)|, 1, 0
  {
    hide ForceAll, Rest, Dependents;
    assert Listed(e, held, n) <= Dependents(e, n);
    ForceAllHeld(e, held, n, order[n], Listed(e, held, n), order);
    RestOfDependents(e, held, n);
  }

  lemma {:induction false} ForceAllHeld(e: Adj, held: set<Name>, n: Name, ks: seq<Name>, todo: set<Name>, order: Order)
    requires Acyclic(e) && Complete(e.Keys, order) && todo <= Dependents(e, n)
    requires (forall r :: r in todo ==> r in ks) && ForceAll(e, held, n, ks, todo, order).ok
    ensures ForceAll(e, held, n, ks, todo, order).held == Rest(e, held, todo)
    decreases |Ancestors(e, n)|, 0, |ks|
  {
    hide Force, Acyclic, Dependents;
    if ks == [] {
      assert todo == {};
    } else {
      var k := ks[0];
      assert forall r :: r in todo && r != k ==> r in ks[1..];
      if k !in todo {
        ForceAllHeld(e, held, n, ks[1..], todo, order);
      } else {
        DependentShrinks(e, k, n);
        ForceHeld(e, held, k, order);
        ForceAllHeld(e, Rest(e, held, {k}), n, ks[1..], todo - {k}, order);
        RestRest(e, held, {k}, todo - {k});
        assert {k} + (todo - {k}) == todo;
      }
    }
  }

  lemma DependentShrinks(e: Adj, r: Name, n: Name)
    requires Acyclic(e) && r in Dependents(e, n)
    ensures |Ancestors(e, r)| < |Ancestors(e, n)|
  {
    AncestorsShrink(e, e, r, n);
  }

  // ----- one walk over the table of dependents

  /** How the whole call ends. */
  ghost predicate Forced(e: Adj, held: set<Name>, n: Name, order: Order, ok: bool, left: set<Name>) {
    Acyclic(e) && Complete(e.Keys, order) && Force(e, held, n, order) == Outcome(ok, left)
  }

  /** The walk has come to position i: what remains decides the whole walk. */
  ghost predicate Walking(e: Adj, held0: set<Name>, held: set<Name>, n: Name, order: Order, i: nat, todo: set<Name>) {
    && Acyclic(e) && Complete(e.Keys, order) && Loaded(e, held0, n) && n in order && i <= |order[n]|
    && todo <= Dependents(e, n) && (forall r :: r in todo ==> r in order[n][i..])
    && ForceAll(e, held, n, order[n][i..], todo, order) == ForceAll(e, held0, n, order[n], Listed(e, held0, n), order)
  }

  lemma WalkBegins(e: Adj, held: set<Name>, n: Name, order: Order)
    requires Acyclic(e) && Complete(e.Keys, order) && Loaded(e, held, n)
    ensures Walking(e, held, held, n, order, 0, Listed(e, held, n))
  {
    hide ForceAll, AtOrAbove, Acyclic;
    assert order[n][0..] == order[n];
  }

  lemma WalkKnows(e: Adj, held0: set<Name>, held: set<Name>, n: Name, order: Order, i: nat, todo: set<Name>)
    requires Walking(e, held0, held, n, order, i, todo)
    ensures n in order && i <= |order[n]| && Loaded(e, held0, n)
  {}

  lemma WalkSkips(e: Adj, held0: set<Name>, held: set<Name>, n: Name, order: Order, i: nat, todo: set<Name>)
    requires Walking(e, held0, held, n, order, i, todo) && i < |order[n]| && order[n][i] !in todo
    ensures Walking(e, held0, held, n, order, i + 1, todo)
  {
    hide Force, Acyclic, Loaded, Dependents, Listed, Complete;
    assert order[n][i..][1..] == order[n][i + 1..];
  }

  lemma WalkForces(e: Adj, held0: set<Name>, held: set<Name>, n: Name, order: Order, i: nat, todo: set<Name>)
    requires Walking(e, held0, held, n, order, i, todo) && i < |order[n]| && order[n][i] in todo
    ensures var r, k := Force(e, held, order[n][i], order), order[n][i];
            if r.ok then Walking(e, held0, r.held, n, order, i + 1, todo - {k})
            else Forced(e, held0, n, order, false, r.held)
  {
    hide Acyclic, Loaded, Dependents, Listed, Complete;
    assert order[n][i..][1..] == order[n][i + 1..];
  }

  /** One dependent was unloaded in the graph e1 that was left by then. */
  lemma WalkSteps(e0: Adj, e1: Adj, held0: set<Name>, held: set<Name>, n: Name, order: Order, i: nat, todo: set<Name>,
                  ok: bool, left: set<Name>)
    requires Walking(e0, held0, held, n, order, i, todo) && i < |order[n]| && order[n][i] in todo
    requires Forced(e1, held, order[n][i], order, ok, left) && Sub(e1, e0) && Closed(e1) && held <= e1.Keys
    ensures if ok then Walking(e0, held0, left, n, order, i + 1, todo - {order[n][i]})
            else Forced(e0, held0, n, order, false, left)
  {
    hide Acyclic, Loaded, Dependents, Listed, Complete, Force, ForceAll, Sub, Closed;
    ForceSub(e0, e1, held, order[n][i], order);
    WalkForces(e0, held0, held, n, order, i, todo);
  }

  lemma WalkEnds(e: Adj, held0: set<Name>, held: set<Name>, n: Name, order: Order, i: nat, todo: set<Name>)
    requires Walking(e, held0, held, n, order, i, todo) && i == |order[n]|
    ensures todo == {} && Forced(e, held0, n, order, true, held - {n})
  {
    hide Acyclic, Loaded, Dependents, Listed, Complete;
    assert order[n][i..] == [];
  }

  // ----- the graph that is left is enough

  lemma LoadedSub(e0: Adj, e1: Adj, held: set<Name>, x: Name)
    requires Sub(e1, e0) && Closed(e1) && held <= e1.Keys
    ensures Loaded(e1, held, x) <==> Loaded(e0, held, x)
  {
    forall h | h in held
      ensures x in e1 && AtOrAbove(e1, h, x) <==> x in e0 && AtOrAbove(e0, h, x)
    {
      if Reaches(e0, h, x) { ClosedReaches(e1, e0, h, x); }
      if Reaches(e1, h, x) { WithinReaches(e1, e0, h, x); }
    }
  }

  lemma ListedSub(e0: Adj, e1: Adj, held: set<Name>, n: Name)
    requires Sub(e1, e0) && Closed(e1) && held <= e1.Keys
    ensures Listed(e1, held, n) == Listed(e0, held, n)
  {
    hide AtOrAbove;
    forall r
      ensures r in Listed(e1, held, n) <==> r in Listed(e0, held, n)
    {
      LoadedSub(e0, e1, held, r);
    }
  }

  lemma {:induction false} ForceShrinks(e: Adj, held: set<Name>, n: Name, order: Order)
    requires Acyclic(e) && Complete(e.Keys, order)
    ensures Force(e, held, n, order).held <= held
    decreases |Ancestors(e, n)|, 1, 0
  {
    hide ForceAll, Dependents, Loaded;
    if Loaded(e, held, n) {
      assert Listed(e, held, n) <= Dependents(e, n);
      LoadedIn(e, held, n);
      ForceAllShrinks(e, held, n, order[n], Listed(e, held, n), order);
    }
  }

  lemma LoadedIn(e: Adj, held: set<Name>, n: Name)
    requires Loaded(e, held, n)
    ensures n in e
  {}

  lemma {:induction false} ForceAllShrinks(e: Adj, held: set<Name>, n: Name, ks: seq<Name>, todo: set<Name>, order: Order)
    requires Acyclic(e) && Complete(e.Keys, order) && todo <= Dependents(e, n)
    ensures ForceAll(e, held, n, ks, todo, order).held <= held
    decreases |Ancestors(e, n)|, 0, |ks|
  {
    hide Force, Acyclic, Complete, Dependents;
    if ks != [] {
      if ks[0] !in todo {
        ForceAllShrinks(e, held, n, ks[1..], todo, order);
      } else {
        DependentShrinks(e, ks[0], n);
        ForceShrinks(e, held, ks[0], order);
        ForceAllShrinks(e, Force(e, held, ks[0], order).held, n, ks[1..], todo - {ks[0]}, order);
      }
    }
  }

  /** In a part of the graph that holds everything the core still needs, a
      forced unload runs as in the whole of it. */
  lemma {:induction false} ForceSub(e0: Adj, e1: Adj, held: set<Name>, n: Name, order: Order)
    requires Acyclic(e0) && Acyclic(e1) && Complete(e0.Keys, order) && Complete(e1.Keys, order)
    requires Sub(e1, e0) && Closed(e1) && held <= e1.Keys
    ensures Force(e1, held, n, order) == Force(e0, held, n, order)
    decreases |Ancestors(e0, n)|, 1, 0
  {
    hide ForceAll, Dependents, Loaded, Sub, Closed, Acyclic;
    LoadedSub(e0, e1, held, n);
    if Loaded(e0, held, n) {
      assert Listed(e0, held, n) <= Dependents(e0, n);
      assert Listed(e1, held, n) <= Dependents(e1, n);
      ListedSub(e0, e1, held, n);
      LoadedIn(e0, held, n);
      ForceAllSub(e0, e1, held, n, order[n], Listed(e0, held, n), order);
    }
  }

  lemma {:induction false} ForceAllSub(e0: Adj, e1: Adj, held: set<Name>, n: Name, ks: seq<Name>, todo: set<Name>,
                                       order: Order)
    requires Acyclic(e0) && Acyclic(e1) && Complete(e0.Keys, order) && Complete(e1.Keys, order)
    requires Sub(e1, e0) && Closed(e1) && held <= e1.Keys
    requires todo <= Dependents(e0, n) && todo <= Dependents(e1, n)
    ensures ForceAll(e1, held, n, ks, todo, order) == ForceAll(e0, held, n, ks, todo, order)
    decreases |Ancestors(e0, n)|, 0, |ks|
  {
    hide Force, Dependents, Sub, Closed, Acyclic, Complete;
    if ks != [] {
      var k := ks[0];
      if k !in todo {
        ForceAllSub(e0, e1, held, n, ks[1..], todo, order);
      } else {
        DependentShrinks(e0, k, n);
        ForceSub(e0, e1, held, k, order);
        ForceShrinks(e0, held, k, order);
        ForceAllSub(e0, e1, Force(e0, held, k, order).held, n, ks[1..], todo - {k}, order);
      }
    }
  }

  // ----- success in every order

  /** The core holds something at or above r and at or above no other dependent
      of n: r cannot go away with another one. */
  ghost predicate Own(e: Adj, held: set<Name>, n: Name, r: Name) {
    exists o :: o in held && AtOrAbove(e, o, r) && forall s :: s in Dependents(e, n) && s != r ==> !AtOrAbove(e, o, s)
  }

  /** Whichever dependents of n go first, the others are loaded when their turn
      comes, and the same holds for those. */
  ghost predicate Safe(e: Adj, held: set<Name>, n: Name)
    requires Acyclic(e)
    decreases |Ancestors(e, n)|
  {
    forall r :: r in Listed(e, held, n) ==>
      && Own(e, held, n, r)
      && (DependentShrinks(e, r, n);
          forall gone :: gone <= Dependents(e, n) - {r} ==> Safe(e, Rest(e, held, gone), r))
  }

  lemma OwnStays(e: Adj, held: set<Name>, n: Name, r: Name, gone: set<Name>)
    requires r in Dependents(e, n) && Own(e, held, n, r) && gone <= Dependents(e, n) - {r}
    ensures Loaded(e, Rest(e, held, gone), r)
  {
    hide AtOrAbove;
  }

  lemma {:induction false} SafeForces(e: Adj, held: set<Name>, n: Name, order: Order)
    requires Acyclic(e) && Complete(e.Keys, order) && Loaded(e, held, n) && Safe(e, held, n)
    ensures Force(e, held, n, order).ok
    decreases |Ancestors(e, n)|, 1, 0
  {
    var none: set<Name> := {};
    assert Rest(e, held, none) == held;
    hide ForceAll, Rest, Dependents, Safe, Loaded;
    assert Listed(e, held, n) <= Dependents(e, n);
    SafeForcesAll(e, held, n, order[n], none, order);
    assert Listed(e, held, n) - none == Listed(e, held, n);
  }

  /** The dependents in `done` are gone already. */
  lemma {:induction false} SafeForcesAll(e: Adj, held: set<Name>, n: Name, ks: seq<Name>, done: set<Name>, order: Order)
    requires Acyclic(e) && Complete(e.Keys, order) && Safe(e, held, n) && done <= Listed(e, held, n)
    ensures Listed(e, held, n) - done <= Dependents(e, n)
    ensures ForceAll(e, Rest(e, held, done), n, ks, Listed(e, held, n) - done, order).ok
    decreases |Ancestors(e, n)|, 0, |ks|
  {
    hide Force, Acyclic, Rest, Loaded, Own;
    var todo := Listed(e, held, n) - done;
    if ks != [] {
      var k := ks[0];
      if k !in todo {
        SafeForcesAll(e, held, n, ks[1..], done, order);
      } else {
        DependentShrinks(e, k, n);
        OwnStays(e, held, n, k, done);
        SafeForces(e, Rest(e, held, done), k, order);
        ForceHeld(e, Rest(e, held, done), k, order);
        RestRest(e, held, done, {k});
        SafeForcesAll(e, held, n, ks[1..], done + {k}, order);
        assert todo - {k} == Listed(e, held, n) - (done + {k});
      }
    }
  }

  // ----- failure in some order

  lemma {:induction false} SameOrder(e: Adj, held: set<Name>, n: Name, o1: Order, o2: Order)
    requires Acyclic(e) && Complete(e.Keys, o1) && Complete(e.Keys, o2)
    requires forall x :: x in e && AtOrAbove(e, x, n) ==> o1[x] == o2[x]
    ensures Force(e, held, n, o1) == Force(e, held, n, o2)
    decreases |Ancestors(e, n)|, 1, 0
  {
    if Loaded(e, held, n) {
      hide ForceAll, Loaded, Dependents;
      assert Listed(e, held, n) <= Dependents(e, n);
      assert AtOrAbove(e, n, n);
      SameOrderAll(e, held, n, o1[n], Listed(e, held, n), o1, o2);
    }
  }

  lemma {:induction false} SameOrderAll(e: Adj, held: set<Name>, n: Name, ks: seq<Name>, todo: set<Name>, o1: Order, o2: Order)
    requires Acyclic(e) && Complete(e.Keys, o1) && Complete(e.Keys, o2) && todo <= Dependents(e, n)
    requires forall x :: x in e && AtOrAbove(e, x, n) ==> o1[x] == o2[x]
    ensures ForceAll(e, held, n, ks, todo, o1) == ForceAll(e, held, n, ks, todo, o2)
    decreases |Ancestors(e, n)|, 0, |ks|
  {
    hide Force, Acyclic;
    if ks != [] {
      var k := ks[0];
      if k !in todo {
        SameOrderAll(e, held, n, ks[1..], todo, o1, o2);
      } else {
        DependentShrinks(e, k, n);
        forall x | x in e && AtOrAbove(e, x, k)
          ensures o1[x] == o2[x]
        {
          AboveBelow(e, x, k, n);
        }
        SameOrder(e, held, k, o1, o2);
        var r := Force(e, held, k, o1);
        SameOrderAll(e, r.held, n, ks[1..], todo - {k}, o1, o2);
      }
    }
  }

  /** When the walk begins with `first`, and r fails without those, it fails. */
  lemma {:induction false} FailsAfter(e: Adj, held: set<Name>, n: Name, first: seq<Name>, r: Name, later: seq<Name>,
                                      todo: set<Name>, order: Order)
    requires Acyclic(e) && Complete(e.Keys, order) && todo <= Dependents(e, n)
    requires r in todo && r !in first && forall i :: 0 <= i < |first| ==> first[i] in todo
    requires forall i, j :: 0 <= i < j < |first| ==> first[i] != first[j]
    requires !Force(e, Rest(e, held, Elements(first)), r, order).ok
    ensures !ForceAll(e, held, n, first + ([r] + later), todo, order).ok
    decreases |first|
  {
    hide Force, Acyclic, Rest, Dependents;
    var ks := first + ([r] + later);
    if first == [] {
      assert ks == [r] + later;
      NothingGone(e, held);
      assert Elements(first) == {};
    } else {
      var k := first[0];
      assert ks[1..] == first[1..] + ([r] + later);
      if Force(e, held, k, order).ok {
        ForceHeld(e, held, k, order);
        assert Elements(first) == {k} + Elements(first[1..]);
        RestRest(e, held, {k}, Elements(first[1..]));
        FailsAfter(e, Rest(e, held, {k}), n, first[1..], r, later, todo - {k}, order);
      }
    }
  }

  ghost function Elements(ks: seq<Name>): set<Name> {
    set k | k in ks
  }

  lemma NothingGone(e: Adj, held: set<Name>)
    ensures Rest(e, held, {}) == held
  {}

  /** Some sequence lists a set. */
  lemma {:induction false} ListOf(names: set<Name>) returns (ks: seq<Name>)
    ensures Elements(ks) == names && forall i, j :: 0 <= i < j < |ks| ==> ks[i] != ks[j]
  {
    ks := [];
    if names != {} {
      var x :| x in names;
      var rest := ListOf(names - {x});
      ks := [x] + rest;
      assert Elements(ks) == {x} + Elements(rest);
    }
  }

  lemma LoadedGone(e: Adj, held: set<Name>, n: Name, gone: set<Name>)
    requires gone <= Dependents(e, n)
    ensures Rest(e, held, gone) == Rest(e, held, gone * Listed(e, held, n))
  {
    hide AtOrAbove;
    forall h, s | h in held && s in gone && AtOrAbove(e, h, s)
      ensures s in Listed(e, held, n)
    {
      assert Loaded(e, held, s);
    }
  }

  lemma NotOwn(e: Adj, held: set<Name>, n: Name, r: Name)
    requires r in Listed(e, held, n) && !Own(e, held, n, r)
    ensures !Loaded(e, Rest(e, held, Listed(e, held, n) - {r}), r)
  {
    hide AtOrAbove;
    forall h | h in held && AtOrAbove(e, h, r)
      ensures h !in Rest(e, held, Listed(e, held, n) - {r})
    {
      var s :| s in Dependents(e, n) && s != r && AtOrAbove(e, h, s);
      assert s in Listed(e, held, n) - {r};
    }
  }

  /** The walk over the dependents of n takes those of `gone` first and then r,
      with which the order fails. */
  lemma FailsWith(e: Adj, held: set<Name>, n: Name, gone: set<Name>, r: Name, inner: Order) returns (order: Order)
    requires Acyclic(e) && Complete(e.Keys, inner) && r in Listed(e, held, n) && gone <= Dependents(e, n) - {r}
    requires !Force(e, Rest(e, held, gone), r, inner).ok
    ensures Complete(e.Keys, order) && !Force(e, held, n, order).ok
  {
    hide ForceAll, Rest, Ancestors;
    var first := ListOf(gone * Listed(e, held, n));
    var later := ListOf(e.Keys);
    order := inner[n := first + ([r] + later)];
    forall x | x in e && AtOrAbove(e, x, r)
      ensures x != n
    {
      EdgeReaches(e, r, n);
      if x == n { AboveBelow(e, n, r, n); }
      NotAboveItself(e, r, n);
    }
    forall x, y | x in e.Keys && y in e.Keys
      ensures x in order && y in order[x]
    {
      assert y in Elements(later);
    }
    LoadedGone(e, held, n, gone);
    SameOrder(e, Rest(e, held, gone), r, inner, order);
    assert forall i :: 0 <= i < |first| ==> first[i] in Elements(first);
    FailsAfter(e, held, n, first, r, later, Listed(e, held, n), order);
  }

  lemma NotAboveItself(e: Adj, r: Name, n: Name)
    requires Acyclic(e) && r in Dependents(e, n)
    ensures !AtOrAbove(e, n, r)
  {
    EdgeReaches(e, r, n);
    if Reaches(e, n, r) { ReachesTransitive(e, r, n, r); }
  }

  lemma {:induction false} UnsafeFails(e: Adj, held: set<Name>, n: Name) returns (order: Order)
    requires Acyclic(e) && !Safe(e, held, n)
    ensures Complete(e.Keys, order) && !Force(e, held, n, order).ok
    decreases |Ancestors(e, n)|
  {
    hide Force, Rest, Own;
    if r :| r in Listed(e, held, n) && !Own(e, held, n, r) {
      var any := ListOf(e.Keys);
      var inner := map x | x in e.Keys :: any;
      assert forall y :: y in Elements(any) <==> y in any;
      NotOwn(e, held, n, r);
      NotLoadedFails(e, Rest(e, held, Listed(e, held, n) - {r}), r, inner);
      order := FailsWith(e, held, n, Listed(e, held, n) - {r}, r, inner);
    } else {
      var r, gone := UnsafeAbove(e, held, n);
      DependentShrinks(e, r, n);
      var inner := UnsafeFails(e, Rest(e, held, gone), r);
      order := FailsWith(e, held, n, gone, r, inner);
    }
  }

  lemma NotLoadedFails(e: Adj, held: set<Name>, n: Name, order: Order)
    requires Acyclic(e) && Complete(e.Keys, order) && !Loaded(e, held, n)
    ensures Force(e, held, n, order) == Outcome(false, held)
  {}

  lemma UnsafeAbove(e: Adj, held: set<Name>, n: Name) returns (r: Name, gone: set<Name>)
    requires Acyclic(e) && !Safe(e, held, n) && forall r :: r in Listed(e, held, n) ==> Own(e, held, n, r)
    ensures r in Listed(e, held, n) && gone <= Dependents(e, n) - {r} && !Safe(e, Rest(e, held, gone), r)
  {
    hide Rest, Own, Acyclic;
    r :| r in Listed(e, held, n)
         && !(DependentShrinks(e, r, n);
              forall gone :: gone <= Dependents(e, n) - {r} ==> Safe(e, Rest(e, held, gone), r));
    gone :| gone <= Dependents(e, n) - {r} && !Safe(e, Rest(e, held, gone), r);
  }

  // ----- in terms of what the core holds

  /** A walk from a module up to something that depends on it. */
  ghost predicate Climb(e: Adj, p: seq<Name>) {
    |p| >= 2 && forall i :: 0 <= i < |p| - 1 ==> p[i + 1] in Dependents(e, p[i])
  }

  /** Something the core holds at or above the end of the walk.  Of the
      dependents beside the walk it is at or above none in the last step, and
      before that only above those that h is above, too. */
  ghost predicate Guards(e: Adj, held: set<Name>, p: seq<Name>, h: Name, o: Name)
    requires |p| >= 2
  {
    && o in held && AtOrAbove(e, o, p[|p| - 1])
    && forall i, s :: 0 <= i < |p| - 1 && s in Dependents(e, p[i]) && s != p[i + 1] && AtOrAbove(e, o, s) ==>
                        i < |p| - 2 && AtOrAbove(e, h, s)
  }

  /** Whatever keeps a dependent above n in place, while all dependents go that
      it does not need, has such a guard. */
  ghost predicate Guarded(e: Adj, held: set<Name>, n: Name) {
    forall p, h :: Climb(e, p) && p[0] == n && h in held && AtOrAbove(e, h, p[|p| - 1]) ==>
      exists o :: Guards(e, held, p, h, o)
  }

  lemma {:induction false} ClimbAbove(e: Adj, p: seq<Name>, i: nat)
    requires Climb(e, p) && i < |p|
    ensures AtOrAbove(e, p[|p| - 1], p[i])
    decreases |p| - i
  {
    if i < |p| - 1 {
      ClimbAbove(e, p, i + 1);
      AboveBelow(e, p[|p| - 1], p[i + 1], p[i]);
    }
  }

  lemma ClimbTail(e: Adj, p: seq<Name>)
    requires Climb(e, p) && |p| > 2
    ensures Climb(e, p[1..])
  {
    var q := p[1..];
    forall i | 0 <= i < |q| - 1
      ensures q[i + 1] in Dependents(e, q[i])
    {
      assert p[i + 1 + 1] in Dependents(e, p[i + 1]);
    }
  }

  lemma {:induction false} SafeGuards(e: Adj, held: set<Name>, n: Name, p: seq<Name>, h: Name) returns (o: Name)
    requires Acyclic(e) && Safe(e, held, n)
    requires Climb(e, p) && p[0] == n && h in held && AtOrAbove(e, h, p[|p| - 1])
    ensures Guards(e, held, p, h, o)
    decreases |p|
  {
    hide Acyclic, AtOrAbove, Dependents;
    var r := p[1];
    assert p[0 + 1] in Dependents(e, p[0]);
    ClimbAbove(e, p, 1);
    AboveTransitive(e, h, p[|p| - 1], r);
    DependentIn(e, r, n);
    assert r in Listed(e, held, n);
    if |p| == 2 {
      assert Own(e, held, n, r);
      o :| o in held && AtOrAbove(e, o, r) && forall s :: s in Dependents(e, n) && s != r ==> !AtOrAbove(e, o, s);
    } else {
      var gone := set s | s in Dependents(e, n) && s != r && !AtOrAbove(e, h, s);
      assert gone <= Dependents(e, n) - {r};
      assert Safe(e, Rest(e, held, gone), r);
      ClimbTail(e, p);
      o := SafeGuards(e, Rest(e, held, gone), r, p[1..], h);
      forall i, s | 0 <= i < |p| - 1 && s in Dependents(e, p[i]) && s != p[i + 1] && AtOrAbove(e, o, s)
        ensures i < |p| - 2 && AtOrAbove(e, h, s)
      {
        if i > 0 { assert p[1..][i - 1] == p[i] && p[1..][i - 1 + 1] == p[i + 1]; }
      }
    }
  }

  lemma DependentIn(e: Adj, r: Name, n: Name)
    requires r in Dependents(e, n)
    ensures r in e
  {}

  lemma {:induction false} GuardedSafe(e: Adj, held: set<Name>, n: Name)
    requires Acyclic(e) && Guarded(e, held, n)
    ensures Safe(e, held, n)
    decreases |Ancestors(e, n)|
  {
    hide Acyclic, AtOrAbove, Guarded, Rest;
    forall r | r in Listed(e, held, n)
      ensures Own(e, held, n, r)
    {
      GuardedOwn(e, held, n, r);
    }
    forall r, gone | r in Listed(e, held, n) && gone <= Dependents(e, n) - {r}
      ensures |Ancestors(e, r)| < |Ancestors(e, n)| && Safe(e, Rest(e, held, gone), r)
    {
      DependentShrinks(e, r, n);
      GuardedAbove(e, held, n, r, gone);
      GuardedSafe(e, Rest(e, held, gone), r);
    }
  }

  lemma ClimbFrom(e: Adj, n: Name, q: seq<Name>)
    requires |q| >= 1 && q[0] in Dependents(e, n) && (|q| > 1 ==> Climb(e, q))
    ensures Climb(e, [n] + q) && ([n] + q)[0] == n && ([n] + q)[|q|] == q[|q| - 1]
  {
    hide Dependents;
    var p := [n] + q;
    forall i | 0 <= i < |p| - 1
      ensures p[i + 1] in Dependents(e, p[i])
    {
      if i > 0 { assert p[i] == q[i - 1] && p[i + 1] == q[i - 1 + 1]; }
    }
  }

  lemma GuardedOwn(e: Adj, held: set<Name>, n: Name, r: Name)
    requires Guarded(e, held, n) && r in Listed(e, held, n)
    ensures Own(e, held, n, r)
  {
    hide AtOrAbove, Climb, Guards, Own, Dependents;
    var h :| h in held && AtOrAbove(e, h, r);
    ClimbFrom(e, n, [r]);
    var p := [n] + [r];
    assert p[|p| - 1] == r;
    var o :| Guards(e, held, p, h, o);
    GuardOwns(e, held, n, r, h, o);
  }

  lemma GuardOwns(e: Adj, held: set<Name>, n: Name, r: Name, h: Name, o: Name)
    requires Guards(e, held, [n] + [r], h, o)
    ensures Own(e, held, n, r)
  {
    hide AtOrAbove, Dependents;
    var p := [n] + [r];
    assert p[0] == n && p[0 + 1] == r;
  }

  /** A guard of a longer walk is not gone with dependents that h does not need. */
  lemma GuardStays(e: Adj, held: set<Name>, n: Name, q: seq<Name>, gone: set<Name>, h: Name, o: Name)
    requires |q| >= 2 && Guards(e, held, [n] + q, h, o)
    requires gone <= Dependents(e, n) - {q[0]} && h in Rest(e, held, gone)
    ensures o in Rest(e, held, gone)
  {
    hide AtOrAbove, Dependents;
    var p := [n] + q;
    assert p[0] == n && p[0 + 1] == q[0];
  }

  lemma GuardsAbove(e: Adj, held: set<Name>, rest: set<Name>, n: Name, q: seq<Name>, h: Name, o: Name)
    requires |q| >= 2 && Guards(e, held, [n] + q, h, o) && o in rest
    ensures Guards(e, rest, q, h, o)
  {
    hide AtOrAbove, Dependents;
    var p := [n] + q;
    assert p[|p| - 1] == q[|q| - 1];
    forall i, s | 0 <= i < |q| - 1 && s in Dependents(e, q[i]) && s != q[i + 1] && AtOrAbove(e, o, s)
      ensures i < |q| - 2 && AtOrAbove(e, h, s)
    {
      assert p[i + 1] == q[i] && p[i + 1 + 1] == q[i + 1];
    }
  }

  lemma GuardedAbove(e: Adj, held: set<Name>, n: Name, r: Name, gone: set<Name>)
    requires Guarded(e, held, n) && r in Dependents(e, n) && gone <= Dependents(e, n) - {r}
    ensures Guarded(e, Rest(e, held, gone), r)
  {
    hide AtOrAbove, Dependents, Climb, Guards, Rest;
    ClimbLong(e);
    var rest := Rest(e, held, gone);
    forall q, h | Climb(e, q) && q[0] == r && h in rest && AtOrAbove(e, h, q[|q| - 1])
      ensures exists o :: Guards(e, rest, q, h, o)
    {
      var o := GuardAbove(e, held, n, r, gone, q, h);
    }
  }

  lemma GuardAbove(e: Adj, held: set<Name>, n: Name, r: Name, gone: set<Name>, q: seq<Name>, h: Name) returns (o: Name)
    requires Guarded(e, held, n) && r in Dependents(e, n) && gone <= Dependents(e, n) - {r}
    requires Climb(e, q) && q[0] == r && h in Rest(e, held, gone) && AtOrAbove(e, h, q[|q| - 1])
    ensures Guards(e, Rest(e, held, gone), q, h, o)
  {
    hide AtOrAbove, Dependents, Climb, Guards;
    ClimbLong(e);
    ClimbFrom(e, n, q);
    var p := [n] + q;
    assert |p| == |q| + 1;
    o :| Guards(e, held, p, h, o);
    GuardStays(e, held, n, q, gone, h, o);
    GuardsAbove(e, held, Rest(e, held, gone), n, q, h, o);
  }

  /** A forced unload succeeds in every order, if and only if the module is
      loaded and guarded. */
  lemma ForceExactly(e: Adj, held: set<Name>, n: Name)
    requires Acyclic(e)
    ensures (forall order :: Complete(e.Keys, order) ==> Force(e, held, n, order).ok)
            <==> Loaded(e, held, n) && Guarded(e, held, n)
  {
    hide Force, Loaded, Guarded, Safe, Acyclic;
    if Guarded(e, held, n) {
      GuardedSafe(e, held, n);
    } else if Safe(e, held, n) {
      SafeGuarded(e, held, n);
    } else {
      var order := UnsafeFails(e, held, n);
    }
    if Loaded(e, held, n) {
      forall order | Complete(e.Keys, order) && Safe(e, held, n)
        ensures Force(e, held, n, order).ok
      {
        SafeForces(e, held, n, order);
      }
    } else {
      var order := SomeOrder(e);
      NotLoadedFails(e, held, n, order);
    }
  }

  lemma SafeGuarded(e: Adj, held: set<Name>, n: Name)
    requires Acyclic(e) && Safe(e, held, n)
    ensures Guarded(e, held, n)
  {
    hide Acyclic, Safe, AtOrAbove, Guards, Climb;
    forall p, h | Climb(e, p) && |p| >= 2 && p[0] == n && h in held && AtOrAbove(e, h, p[|p| - 1])
      ensures exists o :: Guards(e, held, p, h, o)
    {
      var o := SafeGuards(e, held, n, p, h);
    }
    ClimbLong(e);
  }

  lemma ClimbLong(e: Adj)
    ensures forall p :: Climb(e, p) ==> |p| >= 2
  {}

  lemma SomeOrder(e: Adj) returns (order: Order)
    ensures Complete(e.Keys, order)
  {
    var any := ListOf(e.Keys);
    order := map x | x in e.Keys :: any;
    assert forall y :: y in Elements(any) <==> y in any;
  }

  // ----- trees and diamonds

  /** Nothing is at or above two different dependents of a module at or above n. */
  ghost predicate Tree(e: Adj, n: Name) {
    forall x, r, s, c :: (AtOrAbove(e, x, n) && r in Dependents(e, x) && s in Dependents(e, x)
                          && AtOrAbove(e, c, r) && AtOrAbove(e, c, s)) ==> r == s
  }

  /** The methods promise this without an order in hand. */
  lemma GuardedForces(e: Adj, held: set<Name>, n: Name, order: Order, ok: bool, left: set<Name>)
    requires Forced(e, held, n, order, ok, left)
    ensures Loaded(e, held, n) && Guarded(e, held, n) ==> ok
    ensures ok ==> left == Rest(e, held, {n})
  {
    hide Force, Guarded, Loaded, Acyclic, Rest;
    ForceExactly(e, held, n);
    if ok { ForceHeld(e, held, n, order); }
  }

  /** Forks and chains: where the dependents form a tree, every order succeeds. */
  lemma TreeGuarded(e: Adj, held: set<Name>, n: Name)
    requires Tree(e, n)
    ensures Guarded(e, held, n)
  {
    hide AtOrAbove, Dependents, Climb;
    ClimbLong(e);
    forall p, h | Climb(e, p) && p[0] == n && h in held && AtOrAbove(e, h, p[|p| - 1])
      ensures Guards(e, held, p, h, h)
    {
      forall i, s | 0 <= i < |p| - 1 && s in Dependents(e, p[i]) && s != p[i + 1] && AtOrAbove(e, h, s)
        ensures i < |p| - 2 && AtOrAbove(e, h, s)
      {
        ClimbStep(e, p, i);
        AboveTransitive(e, h, p[|p| - 1], p[i + 1]);
      }
    }
  }

  lemma TreeForces(e: Adj, held: set<Name>, n: Name, order: Order)
    requires Acyclic(e) && Complete(e.Keys, order) && Loaded(e, held, n) && Tree(e, n)
    ensures Force(e, held, n, order) == Outcome(true, Rest(e, held, {n}))
  {
    hide Force, Tree, Rest, Loaded, Guarded;
    TreeGuarded(e, held, n);
    ForceExactly(e, held, n);
    ForceHeld(e, held, n, order);
  }

  lemma ClimbStep(e: Adj, p: seq<Name>, i: nat)
    requires Climb(e, p) && i < |p| - 1
    ensures p[i + 1] in Dependents(e, p[i]) && AtOrAbove(e, p[|p| - 1], p[i + 1]) && AtOrAbove(e, p[i], p[0])
  {
    ClimbAbove(e, p, i + 1);
    if i > 0 {
      var q := p[..i + 1];
      forall j | 0 <= j < |q| - 1
        ensures q[j + 1] in Dependents(e, q[j])
      {
        assert p[j + 1] in Dependents(e, p[j]);
      }
      ClimbAbove(e, q, 0);
    }
  }

  /** c needs a and b, and both need n. */
  ghost function Diamond(n: Name, a: Name, b: Name, c: Name): Adj {
    map[n := {}][a := {n}][b := {n}][c := {a, b}]
  }

  ghost predicate Four(n: Name, a: Name, b: Name, c: Name) {
    n != a && n != b && n != c && a != b && a != c && b != c
  }

  lemma DiamondFacts(n: Name, a: Name, b: Name, c: Name)
    requires Four(n, a, b, c)
    ensures var e := Diamond(n, a, b, c);
            && Acyclic(e) && e.Keys == {n, a, b, c}
            && Dependents(e, n) == {a, b} && Dependents(e, a) == {c} && Dependents(e, b) == {c} && Dependents(e, c) == {}
            && AtOrAbove(e, c, a) && AtOrAbove(e, c, b) && AtOrAbove(e, c, n) && !AtOrAbove(e, a, c) && !AtOrAbove(e, b, c)
            && AtOrAbove(e, a, n) && AtOrAbove(e, b, n)
  {
    var e := Diamond(n, a, b, c);
    DiamondAcyclic(n, a, b, c);
    EdgeReaches(e, c, a);
    EdgeReaches(e, c, b);
    EdgeReaches(e, a, n);
    EdgeReaches(e, b, n);
    ReachesTransitive(e, c, a, n);
    if Reaches(e, a, c) { ReachesTransitive(e, c, a, c); }
    if Reaches(e, b, c) { ReachesTransitive(e, c, b, c); }
  }

  lemma Sides(n: Name, a: Name, b: Name, c: Name)
    requires Four(n, a, b, c)
    ensures Diamond(n, a, b, c) == Diamond(n, b, a, c)
  {
    assert {a, b} == {b, a};
  }

  lemma DiamondAcyclic(n: Name, a: Name, b: Name, c: Name)
    requires Four(n, a, b, c)
    ensures Acyclic(Diamond(n, a, b, c))
  {
    hide Reaches;
    var none: Adj := map[];
    NewNodeAcyclic(none, n, {});
    NewNodeAcyclic(map[n := {}], a, {n});
    NewNodeAcyclic(map[n := {}][a := {n}], b, {n});
    NewNodeAcyclic(map[n := {}][a := {n}][b := {n}], c, {a, b});
  }

  /** Nothing to unload first. */
  lemma {:induction false} ForceNone(e: Adj, held: set<Name>, n: Name, ks: seq<Name>, order: Order)
    requires Acyclic(e) && Complete(e.Keys, order)
    ensures ForceAll(e, held, n, ks, {}, order) == Outcome(true, held)
    decreases |ks|
  {
    hide Force, Acyclic, Complete;
    if ks != [] { ForceNone(e, held, n, ks[1..], order); }
  }

  lemma {:induction false} ForceOne(e: Adj, held: set<Name>, n: Name, ks: seq<Name>, r: Name, order: Order)
    requires Acyclic(e) && Complete(e.Keys, order) && r in Dependents(e, n) && r in ks
    ensures ForceAll(e, held, n, ks, {r}, order) == Force(e, held, r, order)
    decreases |ks|
  {
    hide Force, Acyclic, Complete, Dependents;
    if ks[0] == r {
      assert {r} - {r} == {};
      ForceNone(e, Force(e, held, r, order).held, n, ks[1..], order);
    } else {
      ForceOne(e, held, n, ks[1..], r, order);
    }
  }

  /** One of two dependents goes first. */
  lemma {:induction false} ForceTwo(e: Adj, held: set<Name>, n: Name, ks: seq<Name>, r: Name, s: Name, order: Order)
    requires Acyclic(e) && Complete(e.Keys, order) && {r, s} <= Dependents(e, n) && r != s && r in ks && s in ks
    requires Force(e, held, r, order).ok && Force(e, held, s, order).ok
    ensures || ForceAll(e, held, n, ks, {r, s}, order) == Force(e, Force(e, held, r, order).held, s, order)
            || ForceAll(e, held, n, ks, {r, s}, order) == Force(e, Force(e, held, s, order).held, r, order)
    decreases |ks|
  {
    hide Force, Acyclic, Complete, Dependents;
    if ks[0] == r {
      assert {r, s} - {r} == {s};
      ForceOne(e, Force(e, held, r, order).held, n, ks[1..], s, order);
    } else if ks[0] == s {
      assert {r, s} - {s} == {r};
      ForceOne(e, Force(e, held, s, order).held, n, ks[1..], r, order);
    } else {
      ForceTwo(e, held, n, ks[1..], r, s, order);
    }
  }

  /** With the top held, a side goes together with the top. */
  lemma DiamondSide(n: Name, a: Name, b: Name, c: Name, held: set<Name>, order: Order)
    requires Four(n, a, b, c) && c in held && Complete({n, a, b, c}, order)
    ensures Acyclic(Diamond(n, a, b, c)) && Complete(Diamond(n, a, b, c).Keys, order)
    ensures Force(Diamond(n, a, b, c), held, a, order) == Outcome(true, held - {c} - {a})
  {
    var e := Diamond(n, a, b, c);
    DiamondFacts(n, a, b, c);
    hide AtOrAbove, Dependents, Acyclic, Diamond;
    assert Listed(e, held, c) == {} && Listed(e, held, a) == {c};
    ForceNone(e, held, c, order[c], order);
    ForceOne(e, held, a, order[a], c, order);
  }

  /** A diamond whose top alone is requested: in every order the second side is
      gone before its turn, the call fails, and everything is unloaded. */
  lemma DiamondFails(n: Name, a: Name, b: Name, c: Name, order: Order)
    requires Four(n, a, b, c) && Complete({n, a, b, c}, order)
    ensures Acyclic(Diamond(n, a, b, c)) && Complete(Diamond(n, a, b, c).Keys, order)
    ensures Force(Diamond(n, a, b, c), {c}, n, order) == Outcome(false, {})
  {
    var e := Diamond(n, a, b, c);
    DiamondFacts(n, a, b, c);
    DiamondSide(n, a, b, c, {c}, order);
    DiamondSide(n, b, a, c, {c}, order);
    Sides(n, a, b, c);
    hide AtOrAbove, Dependents, Acyclic, Diamond, ForceAll;
    assert Listed(e, {c}, n) == {a, b};
    ForceTwo(e, {c}, n, order[n], a, b, order);
    assert {c} - {c} - {a} == {} && {c} - {c} - {b} == {};
    NotLoadedFails(e, {}, a, order);
    NotLoadedFails(e, {}, b, order);
  }

  /** With both sides requested, too, every order succeeds. */
  lemma DiamondSucceeds(n: Name, a: Name, b: Name, c: Name, order: Order)
    requires Four(n, a, b, c) && Complete({n, a, b, c}, order)
    ensures Acyclic(Diamond(n, a, b, c)) && Complete(Diamond(n, a, b, c).Keys, order)
    ensures Force(Diamond(n, a, b, c), {a, b, c}, n, order) == Outcome(true, {})
  {
    var e := Diamond(n, a, b, c);
    DiamondFacts(n, a, b, c);
    DiamondSide(n, a, b, c, {a, b, c}, order);
    DiamondSide(n, b, a, c, {a, b, c}, order);
    Sides(n, a, b, c);
    hide AtOrAbove, Dependents, Acyclic, Diamond, ForceAll;
    assert Listed(e, {a, b, c}, n) == {a, b} by {
      assert Loaded(e, {a, b, c}, a) && Loaded(e, {a, b, c}, b);
    }
    ForceTwo(e, {a, b, c}, n, order[n], a, b, order);
    assert {a, b, c} - {c} - {a} == {b} && {a, b, c} - {c} - {b} == {a};
    DiamondLast(n, a, b, c, order);
    DiamondLast(n, b, a, c, order);
  }

  lemma DiamondLast(n: Name, a: Name, b: Name, c: Name, order: Order)
    requires Four(n, a, b, c) && Complete({n, a, b, c}, order)
    ensures Acyclic(Diamond(n, a, b, c)) && Complete(Diamond(n, a, b, c).Keys, order)
    ensures Force(Diamond(n, a, b, c), {b}, b, order) == Outcome(true, {})
  {
    var e := Diamond(n, a, b, c);
    DiamondFacts(n, a, b, c);
    hide AtOrAbove, Dependents, Acyclic, Diamond;
    assert Listed(e, {b}, b) == {};
    ForceNone(e, {b}, b, order[b], order);
  }
}
