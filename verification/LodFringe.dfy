/** What lies just outside the viewing range of a level-of-detail map: nodes
    whose data is fetched ahead, and below them nodes that are let go. */
module LodFringe {
  import opened Quadtrees
  import opened LodSelection
  import opened LodTiles

  /** The node was preloaded: its model is gone and its images are kept, or
      there is one load for it, which may have finished. */
  predicate Preloaded(a: Tile, b: Tile) {
    match a.status
    case Active => b == a.(status := Ready, model := false)
    case Ready => b == a
    case Loading => Settled(a, b)
    case _ => Settled(a.(status := Loading), b)
  }

  /** A child of a preloaded node: what was loaded is dropped, and so may be
      what is loaded meanwhile; nothing new is fetched. */
  predicate Dropped(a: Tile, b: Tile) {
    if a.status.Active? || a.status.Ready? then b == a.(status := Meta, images := false, model := false)
    else Settled(a, b) || (a.status.Loading? && b == a.(status := Meta))
  }

  lemma PreloadedNext(a: Tile, b: Tile, c: Tile)
    requires Preloaded(a, b) && Settled(b, c)
    ensures Preloaded(a, c)
  {}

  lemma DroppedNext(a: Tile, b: Tile, c: Tile, d: Tile)
    requires Owned(a) && Settled(a, b) && Dropped(b, c) && Settled(c, d)
    ensures Dropped(a, d)
  {}

  lemma SettledReflexive()
    ensures forall a :: Settled(a, a)
  {}

  lemma SettledTwice()
    ensures forall a, b, c :: Settled(a, b) && Settled(b, c) ==> Settled(a, c)
  {}

  lemma FringeOf(t0: Tiles, t1: Tiles, n: Node)
    requires n in t0 && n in t1 && Preloaded(t0[n], t1[n])
    requires forall k: nat :: n.level > 0 && k < 4 ==>
               Child(n, k) in t0 && Child(n, k) in t1 && Dropped(t0[Child(n, k)], t1[Child(n, k)])
    ensures Fringe(t1, n)
  {
    hide Child;
  }

  /** Dropping child i settles the others at most. */
  lemma DroppedChildren(n: Node, i: nat, t0: Tiles, t1: Tiles, t2: Tiles)
    requires n.level > 0 && i < 4 && t0.Keys == t1.Keys == t2.Keys && forall k: nat :: k < 4 ==> Child(n, k) in t0
    requires forall m :: m in t0 ==> Owned(t0[m])
    requires forall k: nat :: k < i ==> Dropped(t0[Child(n, k)], t1[Child(n, k)])
    requires forall k: nat :: i <= k < 4 ==> Settled(t0[Child(n, k)], t1[Child(n, k)])
    requires forall m :: m in t0 && m != Child(n, i) ==> Settled(t1[m], t2[m])
    requires Dropped(t1[Child(n, i)], t2[Child(n, i)])
    requires forall m :: m in t0 && (m == n || m !in Family(n)) ==> Settled(t0[m], t1[m])
    ensures forall k: nat :: k < i + 1 ==> Dropped(t0[Child(n, k)], t2[Child(n, k)])
    ensures forall k: nat :: i + 1 <= k < 4 ==> Settled(t0[Child(n, k)], t2[Child(n, k)])
    ensures forall m :: m in t0 && (m == n || m !in Family(n)) ==> Settled(t0[m], t2[m])
  {
    hide Dropped, Owned;
    forall k: nat | k < 4
      ensures if k <= i then Dropped(t0[Child(n, k)], t2[Child(n, k)]) else Settled(t0[Child(n, k)], t2[Child(n, k)])
    {
      var c := Child(n, k);
      ChildrenDiffer(n, k, i);
      if k <= i { DroppedOn(t0[c], t1[c], t2[c], k < i); }
    }
    forall m | m in t0 && (m == n || m !in Family(n))
      ensures Settled(t0[m], t2[m])
    {
      ChildrenDiffer(n, i, i);
      assert i == 0 || i == 1 || i == 2 || i == 3;
      assert m != Child(n, i);
    }
  }

  lemma DroppedOn(a: Tile, b: Tile, c: Tile, done: bool)
    requires Owned(a) && if done then Dropped(a, b) && Settled(b, c) else Settled(a, b) && Dropped(b, c)
    ensures Dropped(a, c)
  {}

  /** A node out of range whose parent is in range: its data is there or on its
      way, and its children are not on the screen. */
  ghost predicate Fringe(ts: Tiles, n: Node) {
    && n in ts && (ts[n].status.Loading? || ts[n].status.Ready?)
    && (n.level > 0 ==> forall k: nat :: k < 4 ==> Child(n, k) in ts && !ts[Child(n, k)].status.Active?)
  }

  /** All nodes out of range below n whose parent is n or in range are fringe. */
  ghost predicate Surrounded(near: Range, ts: Tiles, n: Node)
    decreases n.level, 5
  {
    n.level == 0 || Bordered(near, ts, n, 4)
  }

  /** The same for the first i children of n. */
  ghost predicate Bordered(near: Range, ts: Tiles, n: Node, i: nat)
    requires n.level > 0 && i <= 4
    decreases n.level, i
  {
    i == 0 || (Bordered(near, ts, n, i - 1)
               && if near(Child(n, i - 1)) then Surrounded(near, ts, Child(n, i - 1)) else Fringe(ts, Child(n, i - 1)))
  }

  /** A node in a tree of nodes in range, and a child of it that is not. */
  lemma {:induction false} SurroundedAt(near: Range, ts: Tiles, n: Node, m: Node, k: nat)
    requires Surrounded(near, ts, n) && m in Subtree(n) && m.level > 0 && k < 4 && !near(Child(m, k))
    requires forall a :: a in Up(n, m) && a != n ==> near(a)
    ensures Fringe(ts, Child(m, k))
    decreases n.level
  {
    hide Fringe, Up;
    if m == n {
      BorderedAt(near, ts, n, 4, k);
    } else {
      var i :| 0 <= i < 4 && m in Subtree(Child(n, i));
      hide Subtree;
      ChildUp(n, i, m);
      BorderedAt(near, ts, n, 4, i);
      SurroundedAt(near, ts, Child(n, i), m, k);
    }
  }

  lemma ChildUp(n: Node, i: nat, m: Node)
    requires n.level > 0 && i < 4 && m in Subtree(Child(n, i))
    ensures Up(n, m) == {n} + Up(Child(n, i), m) && Child(n, i) in Up(n, m) && Child(n, i) != n
    ensures n !in Up(Child(n, i), m)
  {
    UpFromChild(n, i, m);
    SiblingsDisjoint(n, i, if i == 0 then 1 else 0);
    RootInTree(Child(n, i));
    hide Subtree;
  }

  lemma {:induction false} BorderedAt(near: Range, ts: Tiles, n: Node, i: nat, k: nat)
    requires n.level > 0 && k < i <= 4 && Bordered(near, ts, n, i)
    ensures if near(Child(n, k)) then Surrounded(near, ts, Child(n, k)) else Fringe(ts, Child(n, k))
    decreases i
  {
    hide Fringe, Surrounded;
    if k < i - 1 { BorderedAt(near, ts, n, i - 1, k); }
  }

  // ----- what leaves it as it is

  /** No status changed, except that loads have finished. */
  predicate Still(a: Tile, b: Tile) {
    b.status == a.status || (a.status.Loading? && b.status.Ready?)
  }

  ghost predicate AllStill(t0: Tiles, t1: Tiles, n: Node) {
    forall m :: m in Subtree(n) && m in t0 ==> m in t1 && Still(t0[m], t1[m])
  }

  lemma StillBelow(t0: Tiles, t1: Tiles, n: Node, i: nat)
    requires AllStill(t0, t1, n) && n.level > 0 && i < 4
    ensures AllStill(t0, t1, Child(n, i))
  {
    ChildInside(n, i);
    hide Subtree;
  }

  lemma FringeKept(t0: Tiles, t1: Tiles, n: Node)
    requires Fringe(t0, n) && AllStill(t0, t1, n)
    ensures Fringe(t1, n)
  {
    RootInTree(n);
    if n.level > 0 {
      forall k: nat | k < 4
        ensures Child(n, k) in t1 && !t1[Child(n, k)].status.Active?
      {
        ChildInside(n, k);
        RootInTree(Child(n, k));
      }
    }
  }

  lemma {:induction false} SurroundedKept(near: Range, t0: Tiles, t1: Tiles, n: Node)
    requires Surrounded(near, t0, n) && AllStill(t0, t1, n)
    ensures Surrounded(near, t1, n)
    decreases n.level, 5
  {
    hide AllStill;
    if n.level > 0 {
      forall k: nat | k < 4
        ensures AllStill(t0, t1, Child(n, k))
      {
        StillBelow(t0, t1, n, k);
      }
      BorderedKept(near, t0, t1, n, 4);
    }
  }

  lemma {:induction false} BorderedKept(near: Range, t0: Tiles, t1: Tiles, n: Node, i: nat)
    requires n.level > 0 && i <= 4 && Bordered(near, t0, n, i)
    requires forall k: nat :: k < i ==> AllStill(t0, t1, Child(n, k))
    ensures Bordered(near, t1, n, i)
    decreases n.level, i
  {
    hide AllStill, Fringe, Surrounded;
    if i > 0 {
      BorderedKept(near, t0, t1, n, i - 1);
      if near(Child(n, i - 1)) {
        SurroundedKept(near, t0, t1, Child(n, i - 1));
      } else {
        FringeKept(t0, t1, Child(n, i - 1));
      }
    }
  }

  /** Working on one child leaves the earlier ones alone. */
  lemma BorderedNext(near: Range, t0: Tiles, t1: Tiles, n: Node, i: nat)
    requires n.level > 0 && i < 4 && Bordered(near, t0, n, i) && Elsewhere(t0, t1, Child(n, i))
    requires if near(Child(n, i)) then Surrounded(near, t1, Child(n, i)) else Fringe(t1, Child(n, i))
    ensures Bordered(near, t1, n, i + 1)
  {
    forall k: nat | k < i
      ensures AllStill(t0, t1, Child(n, k))
    {
      SiblingsDisjoint(n, k, i);
      hide Subtree;
    }
    hide AllStill, Elsewhere;
    BorderedKept(near, t0, t1, n, i);
  }

  /** Bringing a selected node and those above it to the screen does so, too. */
  lemma {:induction false} SurroundedShown(near: Range, t0: Tiles, t1: Tiles, n: Node, m: Node)
    requires Surrounded(near, t0, n) && m in Select(near, n)
    requires forall a :: a in Subtree(n) && a !in Up(n, m) && a in t0 ==> a in t1 && Still(t0[a], t1[a])
    ensures Surrounded(near, t1, n)
    decreases n.level, 1
  {
    if n.level > 0 {
      hide Surrounded, Bordered, Select, Fringe;
      BorderedFirst(near, t1, n);
      SurroundedBordered(near, t0, n);
      for i: nat := 0 to 4
        invariant Bordered(near, t1, n, i)
      {
        BorderedAt(near, t0, n, 4, i);
        ShownChild(near, t0, t1, n, m, i);
        BorderedMore(near, t1, n, i);
      }
      SurroundedBordered(near, t1, n);
    }
  }

  lemma SurroundedBordered(near: Range, ts: Tiles, n: Node)
    requires n.level > 0
    ensures Surrounded(near, ts, n) <==> Bordered(near, ts, n, 4)
  {}

  lemma SurroundedLeaf(near: Range, ts: Tiles, n: Node)
    ensures n.level == 0 ==> Surrounded(near, ts, n)
  {}

  lemma UpSelf(root: Node, ts: Tiles, loads: multiset<Node>, n: Node)
    requires Good(root, ts, loads) && n in ts
    ensures n in Up(root, n)
  {}

  lemma BorderedFirst(near: Range, ts: Tiles, n: Node)
    requires n.level > 0
    ensures Bordered(near, ts, n, 0)
  {}

  lemma BorderedMore(near: Range, ts: Tiles, n: Node, i: nat)
    requires n.level > 0 && i < 4 && Bordered(near, ts, n, i)
    requires if near(Child(n, i)) then Surrounded(near, ts, Child(n, i)) else Fringe(ts, Child(n, i))
    ensures Bordered(near, ts, n, i + 1)
  {}

  lemma {:induction false} ShownChild(near: Range, t0: Tiles, t1: Tiles, n: Node, m: Node, i: nat)
    requires n.level > 0 && i < 4 && m in Select(near, n)
    requires if near(Child(n, i)) then Surrounded(near, t0, Child(n, i)) else Fringe(t0, Child(n, i))
    requires forall a :: a in Subtree(n) && a !in Up(n, m) && a in t0 ==> a in t1 && Still(t0[a], t1[a])
    ensures if near(Child(n, i)) then Surrounded(near, t1, Child(n, i)) else Fringe(t1, Child(n, i))
    decreases n.level, 0
  {
    hide Surrounded, Fringe, Up, Select, Subtree, Bordered;
    var c := Child(n, i);
    if m in Subtree(c) {
      SelectedInChild(near, n, m, i);
      StillInChild(t0, t1, n, m, i);
      SurroundedShown(near, t0, t1, c, m);
    } else {
      StillElsewhere(t0, t1, n, m, i);
      hide AllStill;
      if near(c) { SurroundedKept(near, t0, t1, c); } else { FringeKept(t0, t1, c); }
    }
  }

  lemma StillInChild(t0: Tiles, t1: Tiles, n: Node, m: Node, i: nat)
    requires n.level > 0 && i < 4 && m in Subtree(Child(n, i))
    requires forall a :: a in Subtree(n) && a !in Up(n, m) && a in t0 ==> a in t1 && Still(t0[a], t1[a])
    ensures forall a :: a in Subtree(Child(n, i)) && a !in Up(Child(n, i), m) && a in t0 ==> a in t1 && Still(t0[a], t1[a])
  {
    hide Up, Child, Still;
    ChildInside(n, i);
    ChildUp(n, i, m);
    SiblingsDisjoint(n, i, if i == 0 then 1 else 0);
    hide Subtree;
  }

  lemma StillElsewhere(t0: Tiles, t1: Tiles, n: Node, m: Node, i: nat)
    requires n.level > 0 && i < 4 && m !in Subtree(Child(n, i))
    requires forall a :: a in Subtree(n) && a !in Up(n, m) && a in t0 ==> a in t1 && Still(t0[a], t1[a])
    ensures AllStill(t0, t1, Child(n, i))
  {
    hide Up, Child, Still;
    ChildInside(n, i);
    hide Subtree;
    forall a | a in Subtree(Child(n, i))
      ensures a !in Up(n, m)
    {
      NotAbove(n, m, Child(n, i), a);
    }
  }

  lemma NotAbove(n: Node, m: Node, c: Node, a: Node)
    requires a in Subtree(c) && m !in Subtree(c)
    ensures a !in Up(n, m)
  {
    SubtreeTransitive(c, a);
    hide Subtree;
  }

  /** What is selected below a child is selected by that child, in range. */
  lemma SelectedInChild(near: Range, n: Node, m: Node, i: nat)
    requires n.level > 0 && i < 4 && m in Select(near, n) && m in Subtree(Child(n, i))
    ensures near(Child(n, i)) && m in Select(near, Child(n, i))
  {
    hide Subtree, SelectBelow;
    SiblingsDisjoint(n, i, if i == 0 then 1 else 0);
    assert m != n;
    assert m in SelectBelow(near, n, 4);
    SelectedBelow(near, n, 4, m);
    var j :| 0 <= j < 4 && near(Child(n, j)) && m in Select(near, Child(n, j)) && m in Subtree(Child(n, j));
    if j != i { SiblingsDisjoint(n, i, j); }
  }
}
