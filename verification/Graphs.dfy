/** Directed graphs over module names: paths, reachability and acyclicity.

    An adjacency map sends a name to the set of names it depends on.  The same
    theory serves the loaded modules (src/module.c) and the dependencies that
    the libraries declare (util/modules/modules.py). */
module Graphs {

  type Name = string
  type Adj = map<Name, set<Name>>

  /** A walk along at least one edge. */
  ghost predicate Path(e: Adj, p: seq<Name>) {
    && |p| >= 2
    && forall i :: 0 <= i < |p| - 1 ==> p[i] in e && p[i + 1] in e[p[i]]
  }

  ghost predicate PathBetween(e: Adj, a: Name, p: seq<Name>, b: Name) {
    Path(e, p) && p[0] == a && p[|p| - 1] == b
  }

  /** a depends on b, directly or indirectly. */
  ghost predicate Reaches(e: Adj, a: Name, b: Name) {
    exists p :: PathBetween(e, a, p, b)
  }

  ghost predicate Acyclic(e: Adj) {
    forall a :: a in e ==> !Reaches(e, a, a)
  }

  /** Every edge ends inside the graph. */
  ghost predicate Closed(e: Adj) {
    forall a :: a in e ==> e[a] <= e.Keys
  }

  /** e1 has at least the nodes of e0, and the same edges out of those. */
  ghost predicate Sub(e0: Adj, e1: Adj) {
    forall a :: a in e0 ==> a in e1 && e0[a] == e1[a]
  }

  /** e1 has at least the nodes and the edges of e0. */
  ghost predicate Within(e0: Adj, e1: Adj) {
    forall a :: a in e0 ==> a in e1 && e0[a] <= e1[a]
  }

  ghost function Ends(e: Adj): set<Name> {
    set a, b | a in e && b in e[a] :: b
  }

  /** Everything that a depends on. */
  ghost function Descendants(e: Adj, a: Name): set<Name> {
    set b | b in Ends(e) && Reaches(e, a, b)
  }

  /** a together with everything that a depends on. */
  ghost function Closure(e: Adj, a: Name): set<Name> {
    {a} + Descendants(e, a)
  }

  lemma EdgeReaches(e: Adj, a: Name, b: Name)
    requires a in e && b in e[a]
    ensures Reaches(e, a, b)
    ensures b in Descendants(e, a)
  {
    assert PathBetween(e, a, [a, b], b);
  }

  lemma ReachesTransitive(e: Adj, a: Name, b: Name, c: Name)
    requires Reaches(e, a, b) && Reaches(e, b, c)
    ensures Reaches(e, a, c)
  {
    var p :| PathBetween(e, a, p, b);
    var q :| PathBetween(e, b, q, c);
    var r := p + q[1..];
    forall i | 0 <= i < |r| - 1
      ensures r[i] in e && r[i + 1] in e[r[i]]
    {
      if i >= |p| - 1 {
        assert r[i] == q[i - |p| + 1] && r[i + 1] == q[i - |p| + 2];
      }
    }
    assert PathBetween(e, a, r, c);
  }

  /** The first edge of a walk, and what remains of it. */
  lemma ReachesStep(e: Adj, a: Name, b: Name) returns (c: Name)
    requires Reaches(e, a, b)
    ensures a in e && c in e[a] && (c == b || Reaches(e, c, b))
  {
    var p :| PathBetween(e, a, p, b);
    c := p[1];
    if |p| > 2 {
      assert PathBetween(e, c, p[1..], b);
    }
  }

  lemma ReachesEnds(e: Adj, a: Name, b: Name)
    requires Reaches(e, a, b)
    ensures a in e && b in Ends(e) && b in Descendants(e, a)
  {
    var p :| PathBetween(e, a, p, b);
    assert p[|p| - 2] in e && p[|p| - 2 + 1] in e[p[|p| - 2]];
  }

  lemma InClosure(e: Adj, a: Name, b: Name)
    requires a == b || Reaches(e, a, b)
    ensures b in Closure(e, a)
  {
    if a != b { ReachesEnds(e, a, b); }
  }

  lemma DescendantsStep(e: Adj, a: Name, b: Name)
    requires Reaches(e, a, b)
    ensures Descendants(e, b) <= Descendants(e, a)
    ensures !Reaches(e, b, b) ==> |Descendants(e, b)| < |Descendants(e, a)|
  {
    forall c | c in Descendants(e, b)
      ensures c in Descendants(e, a)
    {
      ReachesTransitive(e, a, b, c);
    }
    ReachesEnds(e, a, b);
    if !Reaches(e, b, b) {
      assert b !in Descendants(e, b);
      Smaller(Descendants(e, b), Descendants(e, a), b);
    }
  }

  lemma Smaller<T>(a: set<T>, b: set<T>, x: T)
    requires a <= b && x in b && x !in a
    ensures |a| < |b|
  {
    assert |b| == |a| + |b - a|;
  }

  lemma ClosureStep(e: Adj, a: Name, b: Name)
    requires a in e && b in e[a]
    ensures Closure(e, b) <= Closure(e, a)
  {
    EdgeReaches(e, a, b);
    DescendantsStep(e, a, b);
  }

  lemma WithinReaches(e0: Adj, e1: Adj, a: Name, b: Name)
    requires Within(e0, e1) && Reaches(e0, a, b)
    ensures Reaches(e1, a, b)
  {
    var p :| PathBetween(e0, a, p, b);
    assert PathBetween(e1, a, p, b);
  }

  lemma WithinAcyclic(e0: Adj, e1: Adj)
    requires Within(e0, e1) && Acyclic(e1)
    ensures Acyclic(e0)
  {
    forall a | a in e0
      ensures !Reaches(e0, a, a)
    {
      if Reaches(e0, a, a) {
        WithinReaches(e0, e1, a, a);
      }
    }
  }

  /** A walk that starts in a closed part of the graph never leaves it. */
  lemma ClosedPath(e0: Adj, e1: Adj, p: seq<Name>, i: nat)
    requires Closed(e0) && Sub(e0, e1) && Path(e1, p) && p[0] in e0 && i < |p|
    ensures p[i] in e0
  {
    if i > 0 {
      ClosedPath(e0, e1, p, i - 1);
    }
  }

  lemma ClosedReaches(e0: Adj, e1: Adj, a: Name, b: Name)
    requires Closed(e0) && Sub(e0, e1) && a in e0 && Reaches(e1, a, b)
    ensures b in e0 && Reaches(e0, a, b)
  {
    var p :| PathBetween(e1, a, p, b);
    forall i: nat | i < |p|
      ensures p[i] in e0
    {
      ClosedPath(e0, e1, p, i);
    }
    assert PathBetween(e0, a, p, b);
  }

  /** A new node that nothing points to closes no cycle. */
  lemma NewNodeAcyclic(e: Adj, n: Name, ds: set<Name>)
    requires Closed(e) && Acyclic(e) && n !in e && ds <= e.Keys
    ensures Acyclic(e[n := ds]) && Closed(e[n := ds]) && Sub(e, e[n := ds])
  {
    var e1 := e[n := ds];
    forall a | a in e1
      ensures !Reaches(e1, a, a)
    {
      if Reaches(e1, a, a) {
        if a == n {
          var c := ReachesStep(e1, a, a);
          ClosedReaches(e, e1, c, a);
        } else {
          ClosedReaches(e, e1, a, a);
        }
      }
    }
  }

  /** A walk in a graph with one more edge s -> d either avoids it or gives a
      walk to s and one from d. */
  lemma SplitPath(e: Adj, s: Name, d: Name, p: seq<Name>)
    requires s in e && Path(e[s := e[s] + {d}], p)
    ensures var a, b := p[0], p[|p| - 1];
            Reaches(e, a, b) || ((a == s || Reaches(e, a, s)) && (b == d || Reaches(e, d, b)))
    decreases |p|
  {
    var e1 := e[s := e[s] + {d}];
    var a, c, b := p[0], p[1], p[|p| - 1];
    if c in e[a] {
      EdgeReaches(e, a, c);
    }
    if |p| > 2 {
      assert Path(e1, p[1..]);
      SplitPath(e, s, d, p[1..]);
      if c in e[a] {
        if Reaches(e, c, b) {
          ReachesTransitive(e, a, c, b);
        } else if c != s {
          ReachesTransitive(e, a, c, s);
        }
      }
    }
  }

  /** Adding the edge s -> d keeps the graph acyclic exactly when d is not s
      and does not depend on s. */
  lemma AddEdgeAcyclic(e: Adj, s: Name, d: Name)
    requires s in e && Acyclic(e)
    ensures Acyclic(e[s := e[s] + {d}]) <==> (s != d && !Reaches(e, d, s))
  {
    var e1 := e[s := e[s] + {d}];
    EdgeReaches(e1, s, d);
    if s != d && Reaches(e, d, s) {
      WithinReaches(e, e1, d, s);
      ReachesTransitive(e1, s, d, s);
    }
    if s != d && !Reaches(e, d, s) {
      forall a | a in e1
        ensures !Reaches(e1, a, a)
      {
        if Reaches(e1, a, a) {
          var p :| PathBetween(e1, a, p, a);
          SplitPath(e, s, d, p);
          if a != s && a != d {
            ReachesTransitive(e, d, a, s);
          }
        }
      }
    }
  }
}
