/** The quadtree of src/modules/quadtree: a node is known by its corner and
    its level, and all four children of a node exist down to level 0. */
module Quadtrees {

  datatype Node = Node(x: int, y: int, level: nat)

  function Scale(level: nat): (s: nat)
    ensures s >= 1
  {
    if level == 0 then 1 else 2 * Scale(level - 1)
  }

  /** Bit 0 of the index picks the x half, bit 1 the y half. */
  function Child(n: Node, i: nat): Node
    requires n.level > 0 && i < 4
  {
    var h := Scale(n.level - 1);
    Node(if i % 2 == 0 then n.x else n.x + h, if i < 2 then n.y else n.y + h, n.level - 1)
  }

  /** A node and everything below it. */
  function Subtree(n: Node): (s: set<Node>)
    ensures n in s
    decreases n.level
  {
    if n.level == 0 then {n}
    else {n} + Subtree(Child(n, 0)) + Subtree(Child(n, 1)) + Subtree(Child(n, 2)) + Subtree(Child(n, 3))
  }

  /** The square of m lies inside the square of n. */
  predicate Inside(m: Node, n: Node) {
    && n.x <= m.x && m.x + Scale(m.level) <= n.x + Scale(n.level)
    && n.y <= m.y && m.y + Scale(m.level) <= n.y + Scale(n.level)
    && m.level <= n.level
  }

  lemma ChildInside(n: Node, i: nat)
    requires n.level > 0 && i < 4
    ensures Inside(Child(n, i), n)
    ensures Subtree(Child(n, i)) <= Subtree(n)
  {
    hide *;
    ChildFits(n, i);
    ChildSubtree(n, i);
  }

  lemma ChildFits(n: Node, i: nat)
    requires n.level > 0 && i < 4
    ensures Inside(Child(n, i), n)
  {
    assert Scale(n.level) == 2 * Scale(n.level - 1);
  }

  lemma ChildSubtree(n: Node, i: nat)
    requires n.level > 0 && i < 4
    ensures Subtree(Child(n, i)) <= Subtree(n)
  {
    assert i == 0 || i == 1 || i == 2 || i == 3;
  }

  /** The nodes on the way from m up to n. */
  ghost function Up(n: Node, m: Node): set<Node> {
    set a | a in Subtree(n) && m in Subtree(a)
  }

  lemma UpFromChild(n: Node, i: nat, m: Node)
    requires n.level > 0 && i < 4 && m in Subtree(Child(n, i))
    ensures Up(n, m) == {n} + Up(Child(n, i), m)
  {
    ChildInside(n, i);
    forall a | a in Up(n, m) && a != n
      ensures a in Up(Child(n, i), m)
    {
      var j :| 0 <= j < 4 && a in Subtree(Child(n, j));
      SubtreeTransitive(Child(n, j), a);
      if i != j {
        SiblingsDisjoint(n, i, j);
      }
    }
  }

  lemma UpOfSelf(n: Node)
    ensures Up(n, n) == {n}
  {
    forall a | a in Up(n, n)
      ensures a == n
    {
      SubtreeInside(n, a);
      SubtreeInside(a, n);
    }
  }

  lemma UpOfParent(root: Node, p: Node, i: nat)
    requires p in Subtree(root) && p.level > 0 && i < 4
    ensures Up(root, p) <= Up(root, Child(p, i))
  {
    forall a | a in Up(root, p)
      ensures Child(p, i) in Subtree(a)
    {
      SubtreeTransitive(a, p);
      ChildInside(p, i);
    }
  }

  lemma {:induction false} SubtreeInside(n: Node, m: Node)
    requires m in Subtree(n)
    ensures Inside(m, n)
    ensures m.level == n.level ==> m == n
    decreases n.level
  {
    if m != n {
      var i :| 0 <= i < 4 && m in Subtree(Child(n, i));
      SubtreeInside(Child(n, i), m);
      ChildInside(n, i);
    }
  }

  lemma {:induction false} SubtreeTransitive(n: Node, m: Node)
    requires m in Subtree(n)
    ensures Subtree(m) <= Subtree(n)
    decreases n.level
  {
    if m != n {
      var i :| 0 <= i < 4 && m in Subtree(Child(n, i));
      SubtreeTransitive(Child(n, i), m);
      ChildInside(n, i);
    }
  }

  /** Two children of one node have nothing in common, nor the node with them. */
  lemma SiblingsDisjoint(n: Node, i: nat, j: nat)
    requires n.level > 0 && i < 4 && j < 4 && i != j
    ensures Subtree(Child(n, i)) !! Subtree(Child(n, j))
    ensures n !in Subtree(Child(n, i))
  {
    hide Subtree;
    forall m | m in Subtree(Child(n, i)) && m in Subtree(Child(n, j))
      ensures false
    {
      SubtreeInside(Child(n, i), m);
      SubtreeInside(Child(n, j), m);
    }
    if n in Subtree(Child(n, i)) {
      SubtreeInside(Child(n, i), n);
    }
  }

  lemma ChildrenDiffer(n: Node, i: nat, j: nat)
    requires n.level > 0 && i < 4 && j < 4
    ensures Child(n, i) == Child(n, j) <==> i == j
    ensures Child(n, i) != n
  {}

  /** The parent of a node below the root is in the tree as well. */
  lemma {:induction false} ParentInTree(root: Node, m: Node) returns (p: Node, i: nat)
    requires m in Subtree(root) && m != root
    ensures p in Subtree(root) && p.level == m.level + 1 && i < 4 && m == Child(p, i)
    decreases root.level
  {
    var k :| 0 <= k < 4 && m in Subtree(Child(root, k));
    if m == Child(root, k) {
      p, i := root, k;
    } else {
      p, i := ParentInTree(Child(root, k), m);
      ChildInside(root, k);
    }
  }

  // ----- points of the plane

  predicate Contains(n: Node, px: real, py: real) {
    && n.x as real <= px < (n.x + Scale(n.level)) as real
    && n.y as real <= py < (n.y + Scale(n.level)) as real
  }

  /** The i-th quarter of the square of n, also for a node at level 0. */
  predicate InQuadrant(n: Node, i: nat, px: real, py: real)
    requires i < 4
  {
    var h := Scale(n.level) as real / 2.0;
    var x, y := n.x as real + (i % 2) as real * h, n.y as real + (i / 2) as real * h;
    x <= px < x + h && y <= py < y + h
  }

  /** Which quadrant holds a point, as quadtreeNodeGetContainingChildIndex says. */
  function ContainingChildIndex(n: Node, px: real, py: real): (i: nat)
    ensures i < 4
  {
    var h := Scale(n.level) as real / 2.0;
    (if px < n.x as real + h then 0 else 1) + (if py < n.y as real + h then 0 else 2)
  }

  lemma QuadrantOfPoint(n: Node, px: real, py: real, i: nat)
    requires i < 4
    ensures InQuadrant(n, i, px, py) <==> Contains(n, px, py) && i == ContainingChildIndex(n, px, py)
  {
    assert i == 0 || i == 1 || i == 2 || i == 3;
    assert (i % 2) as real == 0.0 || (i % 2) as real == 1.0;
  }

  lemma ChildIsQuadrant(n: Node, i: nat, px: real, py: real)
    requires n.level > 0 && i < 4
    ensures Contains(Child(n, i), px, py) <==> InQuadrant(n, i, px, py)
  {
    assert i == 0 || i == 1 || i == 2 || i == 3;
    assert Scale(n.level) == 2 * Scale(n.level - 1);
  }
}

/** Which nodes a level-of-detail query selects, and that what they draw tiles
    the plane: the result of selectLodMapNodes in src/modules/lodmap/lodmap.c. */
module LodSelection {
  import opened Basics
  import opened Quadtrees

  /** The range test, with the viewer fixed. */
  type Range = Node -> bool

  /** The quadrants that a node draws itself: all of a leaf, and of another
      node those whose child is out of range. */
  predicate Draws(near: Range, n: Node, i: nat)
    requires i < 4
  {
    n.level == 0 || !near(Child(n, i))
  }

  predicate DrawsAny(near: Range, n: Node) {
    Draws(near, n, 0) || Draws(near, n, 1) || Draws(near, n, 2) || Draws(near, n, 3)
  }

  function Select(near: Range, n: Node): seq<Node>
    decreases n.level, 5
  {
    (if n.level == 0 then [] else SelectBelow(near, n, 4)) + (if DrawsAny(near, n) then [n] else [])
  }

  /** The contributions of the first k children. */
  function SelectBelow(near: Range, n: Node, k: nat): seq<Node>
    requires n.level > 0 && k <= 4
    decreases n.level, k
  {
    if k == 0 then []
    else SelectBelow(near, n, k - 1) + (if near(Child(n, k - 1)) then Select(near, Child(n, k - 1)) else [])
  }

  /** How many of the quadrants that n draws hold the point. */
  function CoverOf(near: Range, n: Node, px: real, py: real): nat {
    One(Draws(near, n, 0) && InQuadrant(n, 0, px, py)) + One(Draws(near, n, 1) && InQuadrant(n, 1, px, py))
    + One(Draws(near, n, 2) && InQuadrant(n, 2, px, py)) + One(Draws(near, n, 3) && InQuadrant(n, 3, px, py))
  }

  /** How many times the point is drawn. */
  function Cover(near: Range, nodes: seq<Node>, px: real, py: real): nat {
    if nodes == [] then 0 else CoverOf(near, nodes[0], px, py) + Cover(near, nodes[1..], px, py)
  }

  lemma {:induction false} CoverConcat(near: Range, a: seq<Node>, b: seq<Node>, px: real, py: real)
    ensures Cover(near, a + b, px, py) == Cover(near, a, px, py) + Cover(near, b, px, py)
  {
    if a == [] {
      assert a + b == b;
    } else {
      assert (a + b)[1..] == a[1..] + b;
      CoverConcat(near, a[1..], b, px, py);
    }
  }

  /** A node draws a point at most once, in the quadrant that holds it. */
  lemma CoverOfNode(near: Range, n: Node, px: real, py: real)
    ensures CoverOf(near, n, px, py) ==
            One(Contains(n, px, py) && Draws(near, n, ContainingChildIndex(n, px, py)))
  {
    QuadrantOfPoint(n, px, py, 0);
    QuadrantOfPoint(n, px, py, 1);
    QuadrantOfPoint(n, px, py, 2);
    QuadrantOfPoint(n, px, py, 3);
  }

  lemma {:induction false} CoverBelow(near: Range, n: Node, k: nat, px: real, py: real)
    requires n.level > 0 && k <= 4
    ensures Cover(near, SelectBelow(near, n, k), px, py) ==
            One(Contains(n, px, py) && ContainingChildIndex(n, px, py) < k
                && near(Child(n, ContainingChildIndex(n, px, py))))
    decreases n.level, k
  {
    if k > 0 {
      var c := Child(n, k - 1);
      CoverBelow(near, n, k - 1, px, py);
      CoverConcat(near, SelectBelow(near, n, k - 1), if near(c) then Select(near, c) else [], px, py);
      ChildIsQuadrant(n, k - 1, px, py);
      QuadrantOfPoint(n, px, py, k - 1);
      if near(c) {
        TilesExactly(near, c, px, py);
      }
    }
  }

  /** The selection tiles the square of the node: every point of it is drawn
      exactly once, and no point outside. */
  lemma {:induction false} TilesExactly(near: Range, n: Node, px: real, py: real)
    ensures Cover(near, Select(near, n), px, py) == One(Contains(n, px, py))
    decreases n.level, 5
  {
    var below := if n.level == 0 then [] else SelectBelow(near, n, 4);
    var own := if DrawsAny(near, n) then [n] else [];
    CoverConcat(near, below, own, px, py);
    CoverOfNode(near, n, px, py);
    if n.level > 0 {
      CoverBelow(near, n, 4, px, py);
    }
    if own == [n] {
      assert own[1..] == [];
    }
  }

  /** What is selected: nodes of the tree that are in range, unless it is the
      node asked for, each with something to draw. */
  lemma {:induction false} SelectedSound(near: Range, n: Node, m: Node)
    requires m in Select(near, n)
    ensures m in Subtree(n) && DrawsAny(near, m) && (m == n || near(m))
    decreases n.level, 5
  {
    if n.level > 0 && m in SelectBelow(near, n, 4) {
      SelectedBelow(near, n, 4, m);
    }
  }

  lemma {:induction false} SelectedBelow(near: Range, n: Node, k: nat, m: Node)
    requires n.level > 0 && k <= 4 && m in SelectBelow(near, n, k)
    ensures m in Subtree(n) && DrawsAny(near, m) && near(m)
    ensures exists i :: 0 <= i < k && near(Child(n, i)) && m in Select(near, Child(n, i)) && m in Subtree(Child(n, i))
    decreases n.level, k
  {
    if m in SelectBelow(near, n, k - 1) {
      SelectedBelow(near, n, k - 1, m);
    } else {
      SelectedSound(near, Child(n, k - 1), m);
      ChildInside(n, k - 1);
    }
  }

  /** A node comes after all nodes below it, and so only once. */
  ghost predicate Upwards(nodes: seq<Node>) {
    forall i, j :: 0 <= i < j < |nodes| ==> nodes[j] !in Subtree(nodes[i])
  }

  lemma {:induction false} SelectedUpwards(near: Range, n: Node)
    ensures Upwards(Select(near, n))
    decreases n.level, 5
  {
    if n.level > 0 {
      BelowUpwards(near, n, 4);
      forall m | m in SelectBelow(near, n, 4)
        ensures n !in Subtree(m)
      {
        SelectedBelow(near, n, 4, m);
        var i :| 0 <= i < 4 && m in Subtree(Child(n, i));
        SubtreeTransitive(Child(n, i), m);
        SiblingsDisjoint(n, i, if i == 0 then 1 else 0);
      }
      hide SelectBelow, Subtree;
      UpwardsConcat(SelectBelow(near, n, 4), if DrawsAny(near, n) then [n] else []);
    }
  }

  lemma UpwardsConcat(a: seq<Node>, b: seq<Node>)
    requires Upwards(a) && Upwards(b) && forall m, k :: m in a && k in b ==> k !in Subtree(m)
    ensures Upwards(a + b)
  {
    hide Subtree;
    forall i, j | 0 <= i < j < |a + b|
      ensures (a + b)[j] !in Subtree((a + b)[i])
    {
      if i < |a| <= j { assert a[i] in a && b[j - |a|] in b; }
    }
  }

  lemma {:induction false} BelowUpwards(near: Range, n: Node, k: nat)
    requires n.level > 0 && k <= 4
    ensures Upwards(SelectBelow(near, n, k))
    decreases n.level, k
  {
    if k > 0 && near(Child(n, k - 1)) {
      var c := Child(n, k - 1);
      BelowUpwards(near, n, k - 1);
      SelectedUpwards(near, c);
      forall m, a | m in SelectBelow(near, n, k - 1) && a in Select(near, c)
        ensures a !in Subtree(m)
      {
        BelowApart(near, n, k, m, a);
      }
      hide Select, Subtree, Upwards;
      UpwardsConcat(SelectBelow(near, n, k - 1), Select(near, c));
    } else if k > 0 {
      BelowUpwards(near, n, k - 1);
    }
  }

  lemma BelowApart(near: Range, n: Node, k: nat, m: Node, a: Node)
    requires n.level > 0 && 0 < k <= 4 && m in SelectBelow(near, n, k - 1) && a in Select(near, Child(n, k - 1))
    ensures a !in Subtree(m)
  {
    SelectedSound(near, Child(n, k - 1), a);
    SelectedBelow(near, n, k - 1, m);
    var i :| 0 <= i < k - 1 && m in Subtree(Child(n, i));
    SubtreeTransitive(Child(n, i), m);
    SiblingsDisjoint(n, i, k - 1);
  }
}
