/** The tiles of a level-of-detail map in src/modules/lodmap: their life cycle,
    and what the main thread and the threads of the loading pool keep. */
module LodTiles {
  import opened Basics
  import opened Quadtrees
  import opened LodSelection

  datatype Status = Inactive | Meta | Loading | Ready | Active

  /** images: the three images are allocated; model: so are the model, its
      textures and its offset vector. */
  datatype Tile = Tile(status: Status, images: bool, model: bool, visible: bool, drawMode: bv4)

  type Tiles = map<Node, Tile>

  const DRAW_ALL: bv4 := 15
  const DRAW_NONE: bv4 := 0

  function DrawModeForIndex(i: nat): bv4 {
    match i
    case 0 => 1
    case 1 => 2
    case 2 => 4
    case 3 => 8
    case _ => 0
  }

  predicate Shows(mode: bv4, i: nat) {
    mode & DrawModeForIndex(i) != 0
  }

  lemma Toggle(mode: bv4, i: nat, k: nat)
    requires i < 4 && k < 4
    ensures Shows(mode ^ DrawModeForIndex(i), k) <==> (if k == i then !Shows(mode, k) else Shows(mode, k))
  {
    assert i == 0 || i == 1 || i == 2 || i == 3;
    assert k == 0 || k == 1 || k == 2 || k == 3;
  }

  lemma AllAndNone(mode: bv4, k: nat)
    requires k < 4
    ensures Shows(DRAW_ALL, k)
    ensures mode == DRAW_NONE <==> !Shows(mode, 0) && !Shows(mode, 1) && !Shows(mode, 2) && !Shows(mode, 3)
  {
    assert k == 0 || k == 1 || k == 2 || k == 3;
  }

  /** The data is there or on its way. */
  predicate Arriving(s: Status) {
    s.Loading? || s.Ready? || s.Active?
  }

  predicate Owned(t: Tile) {
    && (t.images <==> t.status.Ready? || t.status.Active?)
    && (t.model <==> t.status.Active?)
  }

  /** The invariant: every node has a tile, what a tile owns follows from its
      status, it is LOADING exactly while one load for it is pending or
      running, and the root is never down to its meta data. */
  ghost predicate Good(root: Node, ts: Tiles, loads: multiset<Node>) {
    && ts.Keys == Subtree(root)
    && ts[root].status != Meta
    && (forall n :: n in ts ==> Owned(ts[n]))
    && (forall n :: n in ts ==> loads[n] == if ts[n].status.Loading? then 1 else 0)
    && (forall n :: n in loads ==> n in ts)
  }

  /** What the loading threads do to a tile. */
  predicate Settled(a: Tile, b: Tile) {
    b == a || (a.status.Loading? && b == a.(status := Ready, images := true))
  }

  ghost predicate AllSettled(t0: Tiles, t1: Tiles) {
    t0.Keys == t1.Keys && forall n :: n in t0 ==> Settled(t0[n], t1[n])
  }

  /** Outside the square of `top` only the loading threads were at work. */
  ghost predicate Elsewhere(t0: Tiles, t1: Tiles, top: Node) {
    t0.Keys == t1.Keys && forall n :: n in t0 && n !in Subtree(top) ==> Settled(t0[n], t1[n])
  }

  /** The nodes up to `top` that a selected node needs are arriving. */
  ghost predicate Supported(ts: Tiles, top: Node, nodes: seq<Node>) {
    forall m, a :: m in nodes && a in Up(top, m) ==> a in ts && Arriving(ts[a].status)
  }

  ghost predicate Marked(near: Range, ts: Tiles, nodes: seq<Node>) {
    forall m :: m in nodes ==> m in ts && forall k: nat :: k < 4 ==> (Shows(ts[m].drawMode, k) <==> Draws(near, m, k))
  }

  lemma GoodFacts(root: Node, ts: Tiles, loads: multiset<Node>)
    requires Good(root, ts, loads)
    ensures root in ts && ts[root].status != Meta
    ensures forall n :: n in ts ==> Owned(ts[n]) && loads[n] == if ts[n].status.Loading? then 1 else 0
    ensures forall n :: n in loads ==> n in ts
  {}

  /** A node and its children. */
  ghost function Family(n: Node): set<Node> {
    if n.level == 0 then {n} else {n, Child(n, 0), Child(n, 1), Child(n, 2), Child(n, 3)}
  }

  lemma FamilyInside(n: Node)
    ensures Family(n) <= Subtree(n)
  {}

  lemma GoodChange(root: Node, ts: Tiles, loads: multiset<Node>, n: Node, t: Tile, loads1: multiset<Node>)
    requires Good(root, ts, loads) && n in ts && Owned(t) && (n == root ==> t.status != Meta)
    requires loads1 == loads[n := if t.status.Loading? then 1 else 0]
    ensures Good(root, ts[n := t], loads1)
  {}

  lemma BelowRoot(root: Node, ts: Tiles, loads: multiset<Node>, n: Node)
    requires Good(root, ts, loads) && n in ts && n != root
    ensures n.level < root.level
  {
    SubtreeInside(root, n);
  }

  lemma ChildInTree(root: Node, ts: Tiles, loads: multiset<Node>, n: Node, i: nat)
    requires Good(root, ts, loads) && n in ts && n.level > 0 && i < 4
    ensures Child(n, i) in ts && Child(n, i) != root && Child(n, i) in Subtree(n)
  {
    ChildInside(n, i);
    SubtreeTransitive(root, n);
    SubtreeInside(root, n);
  }

  /** Working on the i-th child leaves what the earlier ones selected alone. */
  lemma NextChild(near: Range, t0: Tiles, t1: Tiles, t2: Tiles, n: Node, i: nat)
    requires n.level > 0 && i < 4
    requires n in t0 && Elsewhere(t0, t1, n) && Elsewhere(t1, t2, Child(n, i)) && Arriving(t1[n].status)
    requires Supported(t1, n, SelectBelow(near, n, i)) && Marked(near, t1, SelectBelow(near, n, i))
    ensures Elsewhere(t0, t2, n) && Arriving(t2[n].status)
    ensures Supported(t2, n, SelectBelow(near, n, i)) && Marked(near, t2, SelectBelow(near, n, i))
  {
    hide Subtree, Select, SelectBelow, Up, Shows, Draws;
    ChildInside(n, i);
    SiblingsDisjoint(n, i, if i == 0 then 1 else 0);
    forall m, a | m in SelectBelow(near, n, i) && a in Up(n, m)
      ensures a !in Subtree(Child(n, i)) && m !in Subtree(Child(n, i))
    {
      NotUpFromSibling(near, n, i, m, a);
    }
    forall m | m in SelectBelow(near, n, i)
      ensures m in Up(n, m)
    {
      SelectedUp(near, n, i, m);
    }
  }

  lemma SelectedUp(near: Range, n: Node, i: nat, m: Node)
    requires n.level > 0 && i <= 4 && m in SelectBelow(near, n, i)
    ensures m in Up(n, m)
  {
    SelectedBelow(near, n, i, m);
  }

  lemma NotUpFromSibling(near: Range, n: Node, i: nat, m: Node, a: Node)
    requires n.level > 0 && i < 4 && m in SelectBelow(near, n, i) && a in Up(n, m)
    ensures a !in Subtree(Child(n, i)) && m !in Subtree(Child(n, i))
  {
    SelectedBelow(near, n, i, m);
    var j :| 0 <= j < i && near(Child(n, j)) && m in Select(near, Child(n, j)) && m in Subtree(Child(n, j));
    SiblingsDisjoint(n, j, i);
    SiblingsDisjoint(n, i, j);
    if a in Subtree(Child(n, i)) {
      SubtreeTransitive(Child(n, i), a);
    }
  }

  // ----- bringing tiles to the screen

  /** Activation only moves arriving tiles forward; an active one stays as it
      is, and so does one without data. */
  predicate Advances(a: Tile, b: Tile) {
    && b.drawMode == a.drawMode
    && (Arriving(a.status) ==> Arriving(b.status))
    && (a.status.Ready? ==> !b.status.Loading?)
    && (a.status.Active? || !Arriving(a.status) ==> b == a)
  }

  ghost predicate AllAdvanced(t0: Tiles, t1: Tiles) {
    t0.Keys == t1.Keys && forall n :: n in t0 ==> Advances(t0[n], t1[n])
  }

  lemma AdvancedReflexive(ts: Tiles)
    ensures AllAdvanced(ts, ts)
  {}

  lemma AllSettledAdvanced(t0: Tiles, t1: Tiles)
    requires AllSettled(t0, t1)
    ensures AllAdvanced(t0, t1)
  {}

  lemma AdvancedTransitive(t0: Tiles, t1: Tiles, t2: Tiles)
    requires AllAdvanced(t0, t1) && AllAdvanced(t1, t2)
    ensures AllAdvanced(t0, t2)
  {}

  lemma AdvancedSupported(root: Node, t0: Tiles, t1: Tiles, nodes: seq<Node>)
    requires AllAdvanced(t0, t1) && Supported(t0, root, nodes)
    ensures Supported(t1, root, nodes)
  {}

  lemma AdvancedMarked(near: Range, t0: Tiles, t1: Tiles, nodes: seq<Node>)
    requires AllAdvanced(t0, t1) && Marked(near, t0, nodes)
    ensures Marked(near, t1, nodes)
  {}

  lemma SupportedParent(root: Node, ts: Tiles, p: Node, i: nat)
    requires p in Subtree(root) && p.level > 0 && i < 4 && Supported(ts, root, [Child(p, i)])
    ensures Supported(ts, root, [p])
  {
    UpOfParent(root, p, i);
  }

  lemma SupportedArrives(root: Node, ts: Tiles, n: Node)
    requires n in Subtree(root) && Supported(ts, root, [n])
    ensures n in ts && Arriving(ts[n].status)
  {
    assert n in Up(root, n);
  }

  /** Drawn by drawOpenGLLodMap: there is a visible model. */
  ghost predicate OnScreen(ts: Tiles, n: Node) {
    n in ts && ts[n].status.Active? && ts[n].model && ts[n].visible
  }

  lemma SelectedInTree(near: Range, n: Node)
    ensures forall m :: m in Select(near, n) ==> m in Subtree(n)
  {
    forall m | m in Select(near, n)
      ensures m in Subtree(n)
    {
      SelectedSound(near, n, m);
    }
  }

  lemma SupportedOne(root: Node, ts: Tiles, nodes: seq<Node>, n: Node)
    requires Supported(ts, root, nodes) && n in nodes
    ensures Supported(ts, root, [n])
  {}

  /** Being visible matters neither to the data nor to what is drawn. */
  lemma SupportedShown(root: Node, near: Range, ts: Tiles, nodes: seq<Node>, n: Node)
    requires n in ts && Supported(ts, root, nodes) && Marked(near, ts, nodes)
    ensures Supported(ts[n := ts[n].(visible := true)], root, nodes)
    ensures Marked(near, ts[n := ts[n].(visible := true)], nodes)
  {}

  /** How often drawing the nodes with their draw modes covers a point. */
  ghost function Drawn(ts: Tiles, nodes: seq<Node>, px: real, py: real): nat {
    if nodes == [] then 0
    else Drawn(ts, nodes[1..], px, py)
         + if nodes[0] in ts then DrawnBy(ts[nodes[0]].drawMode, nodes[0], px, py) else 0
  }

  ghost function DrawnBy(mode: bv4, n: Node, px: real, py: real): nat {
    One(Shows(mode, 0) && InQuadrant(n, 0, px, py)) + One(Shows(mode, 1) && InQuadrant(n, 1, px, py))
    + One(Shows(mode, 2) && InQuadrant(n, 2, px, py)) + One(Shows(mode, 3) && InQuadrant(n, 3, px, py))
  }

  lemma {:induction false} DrawnAsSelected(near: Range, ts: Tiles, nodes: seq<Node>, px: real, py: real)
    requires Marked(near, ts, nodes)
    ensures Drawn(ts, nodes, px, py) == Cover(near, nodes, px, py)
  {
    if nodes != [] {
      assert forall m :: m in nodes[1..] ==> m in nodes;
      DrawnAsSelected(near, ts, nodes[1..], px, py);
      MarkedNode(near, ts, nodes, nodes[0], px, py);
    }
  }

  lemma MarkedNode(near: Range, ts: Tiles, nodes: seq<Node>, n: Node, px: real, py: real)
    requires Marked(near, ts, nodes) && n in nodes
    ensures n in ts && DrawnBy(ts[n].drawMode, n, px, py) == CoverOf(near, n, px, py)
  {
    var k0: nat, k1: nat, k2: nat, k3: nat := 0, 1, 2, 3;
    assert Shows(ts[n].drawMode, k0) <==> Draws(near, n, k0);
    assert Shows(ts[n].drawMode, k1) <==> Draws(near, n, k1);
    assert Shows(ts[n].drawMode, k2) <==> Draws(near, n, k2);
    assert Shows(ts[n].drawMode, k3) <==> Draws(near, n, k3);
  }

  /** What is on the screen tiles the square of the root: no gap, no overlap. */
  lemma DrawnExactly(near: Range, ts: Tiles, root: Node)
    requires Marked(near, ts, Select(near, root))
    ensures forall px, py :: Drawn(ts, Select(near, root), px, py) == One(Contains(root, px, py))
  {
    forall px, py
      ensures Drawn(ts, Select(near, root), px, py) == One(Contains(root, px, py))
    {
      DrawnAsSelected(near, ts, Select(near, root), px, py);
      TilesExactly(near, root, px, py);
    }
  }

  // ----- the tree grows

  function NewTile(): Tile {
    Tile(Inactive, false, false, false, DRAW_NONE)
  }

  /** Old tiles are as they were, new ones hold nothing. */
  ghost predicate Kept(t0: Tiles, t1: Tiles) {
    && (forall n :: n in t0 ==> n in t1 && t1[n] == t0[n])
    && (forall n :: n in t1 && n !in t0 ==> t1[n] == NewTile())
  }

  lemma KeptReflexive(ts: Tiles)
    ensures Kept(ts, ts)
  {}

  lemma KeptCreated(t0: Tiles, t1: Tiles, n: Node)
    requires Kept(t0, t1) && n !in t1
    ensures Kept(t0, t1[n := NewTile()])
  {}

  lemma KeptTransitive(t0: Tiles, t1: Tiles, t2: Tiles)
    requires Kept(t0, t1) && Kept(t1, t2)
    ensures Kept(t0, t2)
  {}

  ghost function Filled(n: Node, k: nat): set<Node>
    requires n.level > 0 && k <= 4
  {
    if k == 0 then {} else Filled(n, k - 1) + Subtree(Child(n, k - 1))
  }

  lemma FilledAll(n: Node)
    requires n.level > 0
    ensures {n} + Filled(n, 4) == Subtree(n)
  {
    assert Filled(n, 1) == Subtree(Child(n, 0));
    assert Filled(n, 2) == Filled(n, 1) + Subtree(Child(n, 1));
    assert Filled(n, 3) == Filled(n, 2) + Subtree(Child(n, 2));
  }

  lemma LeafTree(n: Node)
    requires n.level == 0
    ensures Subtree(n) == {n}
  {}

  lemma RootInTree(n: Node)
    ensures n in Subtree(n)
  {}

  lemma NewRoot(root: Node, ts: Tiles, loads: multiset<Node>, newRoot: Node, i: nat)
    requires Good(root, ts, loads) && newRoot.level > 0 && i < 4 && Child(newRoot, i) == root
    ensures newRoot !in ts && Subtree(root) <= Subtree(newRoot)
    ensures ts.Keys == Subtree(root)
  {
    ChildInside(newRoot, i);
    if newRoot in ts {
      SubtreeInside(root, newRoot);
    }
  }

  lemma GoodGrown(root: Node, ts: Tiles, loads: multiset<Node>, newRoot: Node, ts1: Tiles)
    requires Good(root, ts, loads) && newRoot !in ts
    requires ts1.Keys == Subtree(newRoot) && Kept(ts[newRoot := NewTile()], ts1)
    ensures Good(newRoot, ts1, loads) && Kept(ts, ts1)
  {
    RootInTree(newRoot);
    hide Subtree;
    assert forall n :: n in ts1 && n !in ts ==> ts1[n] == NewTile();
  }

  /** How far a coordinate is outside an interval, plus one. */
  function Outside(lo: int, size: nat, p: real): (d: real)
    ensures d >= 0.0
  {
    if p < lo as real then lo as real - p + 1.0
    else if p >= (lo + size) as real then p - (lo + size) as real + 1.0
    else 0.0
  }

  function Distance(n: Node, px: real, py: real): (d: real)
    ensures d >= 0.0
  {
    Outside(n.x, Scale(n.level), px) + Outside(n.y, Scale(n.level), py)
  }

  lemma Closer(n: Node, n1: Node, px: real, py: real)
    requires !Contains(n, px, py) && n1.level == n.level + 1
    requires n1.x == if px < n.x as real then n.x - Scale(n.level) else n.x
    requires n1.y == if py < n.y as real then n.y - Scale(n.level) else n.y
    ensures Distance(n1, px, py) <= Distance(n, px, py) - 1.0
  {
    assert Scale(n1.level) == 2 * Scale(n.level);
  }

  /** How one side of the root grows: downwards, by the scale of each level in
      turn, for as long as the coordinate lies below; and no further. */
  ghost predicate Lowered(lo: int, level: nat, lo1: int, level1: nat, p: real) {
    && level <= level1
    && if p >= lo as real then lo1 == lo
       else exists m: nat :: level < m <= level1 && lo1 == lo - (Scale(m) - Scale(level))
                             && lo1 as real <= p < (lo1 + Scale(m - 1)) as real
  }

  /** The first root in a row of growing ones that covers the point: itself if
      it does, and otherwise one whose part with the old root does not. */
  ghost predicate Expanded(n: Node, n1: Node, px: real, py: real) {
    && Contains(n1, px, py) && n in Subtree(n1)
    && Lowered(n.x, n.level, n1.x, n1.level, px) && Lowered(n.y, n.level, n1.y, n1.level, py)
    && if Contains(n, px, py) then n1 == n else NotBefore(n, n1, px, py)
  }

  ghost predicate NotBefore(n: Node, n1: Node, px: real, py: real) {
    n1.level > n.level && exists i :: 0 <= i < 4 && n in Subtree(Child(n1, i)) && !Contains(Child(n1, i), px, py)
  }

  lemma NotBeforeNext(n: Node, newRoot: Node, i: nat, n1: Node, px: real, py: real)
    requires !Contains(n, px, py) && newRoot.level == n.level + 1 && i < 4 && Child(newRoot, i) == n
    requires n1 == newRoot || NotBefore(newRoot, n1, px, py)
    ensures NotBefore(n, n1, px, py)
  {
    RootInTree(n);
    hide Subtree, Contains, Child;
    if n1 == newRoot {
      assert n in Subtree(Child(n1, i)) && !Contains(Child(n1, i), px, py);
    } else {
      var j :| 0 <= j < 4 && newRoot in Subtree(Child(n1, j)) && !Contains(Child(n1, j), px, py);
      SubtreeTransitive(Child(n1, j), newRoot);
      ChildInside(newRoot, i);
      assert n in Subtree(Child(n1, j));
    }
  }

  lemma LoweredNext(lo: int, level: nat, mid: int, lo1: int, level1: nat, p: real)
    requires mid == if p < lo as real then lo - Scale(level) else lo
    requires Lowered(mid, level + 1, lo1, level1, p)
    ensures Lowered(lo, level, lo1, level1, p)
  {
    assert Scale(level + 1) == 2 * Scale(level);
    if mid as real <= p < lo as real {
      var m := level + 1;
      assert lo1 == lo - (Scale(m) - Scale(level)) && Scale(m - 1) == Scale(level);
    }
  }

  lemma ExpandedNext(n: Node, newRoot: Node, i: nat, n1: Node, px: real, py: real)
    requires !Contains(n, px, py) && newRoot.level == n.level + 1 && i < 4 && Child(newRoot, i) == n
    requires newRoot.x == if px < n.x as real then n.x - Scale(n.level) else n.x
    requires newRoot.y == if py < n.y as real then n.y - Scale(n.level) else n.y
    requires Expanded(newRoot, n1, px, py)
    ensures Expanded(n, n1, px, py)
  {
    hide Subtree, Lowered, Contains, NotBefore;
    ChildInside(newRoot, i);
    RootInTree(n);
    SubtreeTransitive(n1, newRoot);
    LoweredNext(n.x, n.level, newRoot.x, n1.x, n1.level, px);
    LoweredNext(n.y, n.level, newRoot.y, n1.y, n1.level, py);
    NotBeforeNext(n, newRoot, i, n1, px, py);
  }

  lemma ExpandedNot(n: Node, px: real, py: real)
    requires Contains(n, px, py)
    ensures Expanded(n, n, px, py)
  {
    RootInTree(n);
  }

  lemma RootFacts(root: Node, ts: Tiles, loads: multiset<Node>)
    requires Good(root, ts, loads)
    ensures root in ts && (ts[root].status.Inactive? || Arriving(ts[root].status))
  {}

  lemma SelectionBegins(near: Range, ts: Tiles, n: Node)
    ensures Supported(ts, n, []) && Marked(near, ts, [])
    ensures n in Subtree(n)
    ensures n.level > 0 ==> SelectBelow(near, n, 0) == []
  {}

  lemma ElsewhereFrom(t0: Tiles, t1: Tiles, t2: Tiles, top: Node)
    requires t0.Keys == t1.Keys && t1.Keys == t2.Keys
    requires forall n :: n in t0 && n !in Subtree(top) ==> Settled(t0[n], t1[n])
    requires forall n :: n in t1 && n !in Subtree(top) ==> Settled(t1[n], t2[n])
    ensures Elsewhere(t0, t2, top)
  {}

  /** The node itself is selected exactly when it has something to draw. */
  lemma SelectionEnds(near: Range, ts: Tiles, n: Node, mode: bv4)
    requires n in ts && Arriving(ts[n].status)
    requires forall k: nat :: k < 4 ==> (Shows(mode, k) <==> Draws(near, n, k))
    requires var below := if n.level == 0 then [] else SelectBelow(near, n, 4);
             Supported(ts, n, below) && Marked(near, ts, below)
    ensures mode != DRAW_NONE <==> DrawsAny(near, n)
    ensures var below := if n.level == 0 then [] else SelectBelow(near, n, 4);
            && Select(near, n) == below + (if mode != DRAW_NONE then [n] else [])
            && n !in below
            && Supported(ts[n := ts[n].(drawMode := mode)], n, below + [n])
            && Marked(near, ts[n := ts[n].(drawMode := mode)], below + [n])
  {
    hide Select, SelectBelow, Supported, Shows, Draws, Subtree;
    AnythingDrawn(near, n, mode);
    SelectedLast(near, n);
    var below := if n.level == 0 then [] else SelectBelow(near, n, 4);
    SupportedLast(ts, n, below, mode);
  }

  lemma AnythingDrawn(near: Range, n: Node, mode: bv4)
    requires forall k: nat :: k < 4 ==> (Shows(mode, k) <==> Draws(near, n, k))
    ensures mode != DRAW_NONE <==> DrawsAny(near, n)
  {
    AllAndNone(mode, 0);
    assert Draws(near, n, 0) == Shows(mode, 0) && Draws(near, n, 1) == Shows(mode, 1);
    assert Draws(near, n, 2) == Shows(mode, 2) && Draws(near, n, 3) == Shows(mode, 3);
    hide Shows, Draws;
  }

  lemma SelectedLast(near: Range, n: Node)
    ensures var below := if n.level == 0 then [] else SelectBelow(near, n, 4);
            n !in below && Select(near, n) == below + (if DrawsAny(near, n) then [n] else [])
  {
    if n.level > 0 && n in SelectBelow(near, n, 4) {
      SelectedBelow(near, n, 4, n);
      var i :| 0 <= i < 4 && n in Subtree(Child(n, i));
      SiblingsDisjoint(n, i, if i == 0 then 1 else 0);
    }
  }

  lemma SupportedLast(ts: Tiles, n: Node, below: seq<Node>, mode: bv4)
    requires n in ts && Arriving(ts[n].status) && Supported(ts, n, below)
    ensures Supported(ts[n := ts[n].(drawMode := mode)], n, below + [n])
  {
    UpOfSelf(n);
  }

  lemma DrawAll(near: Range, n: Node)
    ensures forall k: nat :: k < 4 ==> Shows(DRAW_ALL, k)
    ensures n.level == 0 ==> forall k: nat :: k < 4 ==> Draws(near, n, k)
  {
    forall k: nat | k < 4
      ensures Shows(DRAW_ALL, k)
    {
      AllAndNone(DRAW_ALL, k);
    }
  }

  /** After i children the mask lacks the quadrants of those in range. */
  ghost predicate Masked(near: Range, n: Node, i: nat, mode: bv4) {
    forall k: nat :: k < 4 ==> (Shows(mode, k) <==> (k < i ==> Draws(near, n, k)))
  }

  lemma MaskChild(near: Range, n: Node, i: nat, mode: bv4)
    requires n.level > 0 && i < 4 && Masked(near, n, i, mode)
    ensures Masked(near, n, i + 1, if near(Child(n, i)) then mode ^ DrawModeForIndex(i) else mode)
  {
    var mode1 := if near(Child(n, i)) then mode ^ DrawModeForIndex(i) else mode;
    forall k: nat | k < 4
      ensures Shows(mode1, k) <==> (k < i + 1 ==> Draws(near, n, k))
    {
      Toggle(mode, i, k);
      assert Shows(mode, k) <==> (k < i ==> Draws(near, n, k));
    }
  }

  lemma SelectNext(near: Range, n: Node, i: nat)
    requires n.level > 0 && i < 4
    ensures SelectBelow(near, n, i + 1) ==
            SelectBelow(near, n, i) + if near(Child(n, i)) then Select(near, Child(n, i)) else []
  {}

  lemma SupportedConcat(near: Range, ts: Tiles, n: Node, a: seq<Node>, b: seq<Node>)
    ensures Supported(ts, n, a) && Supported(ts, n, b) ==> Supported(ts, n, a + b)
    ensures Marked(near, ts, a) && Marked(near, ts, b) ==> Marked(near, ts, a + b)
  {
    hide Up, Shows, Draws, Arriving;
    assert forall m :: m in a + b <==> m in a || m in b;
  }

  lemma SupportedFromChild(near: Range, ts: Tiles, n: Node, i: nat)
    requires n.level > 0 && i < 4 && n in ts && Arriving(ts[n].status)
    requires Supported(ts, Child(n, i), Select(near, Child(n, i)))
    ensures Supported(ts, n, Select(near, Child(n, i)))
  {
    hide Select, Subtree, Up;
    var c := Child(n, i);
    forall m, a | m in Select(near, c) && a in Up(n, m)
      ensures a in ts && Arriving(ts[a].status)
    {
      SelectedSound(near, c, m);
      UpFromChild(n, i, m);
    }
  }

  /** What a child in range selected is supported up to its parent. */
  lemma SupportedByParent(near: Range, ts: Tiles, n: Node, i: nat)
    requires n.level > 0 && i < 4 && n in ts && Arriving(ts[n].status) && near(Child(n, i))
    requires Supported(ts, n, SelectBelow(near, n, i)) && Supported(ts, Child(n, i), Select(near, Child(n, i)))
    requires Marked(near, ts, SelectBelow(near, n, i)) && Marked(near, ts, Select(near, Child(n, i)))
    ensures Supported(ts, n, SelectBelow(near, n, i + 1))
    ensures Marked(near, ts, SelectBelow(near, n, i + 1))
  {
    hide *;
    SelectNext(near, n, i);
    SupportedFromChild(near, ts, n, i);
    SupportedConcat(near, ts, n, SelectBelow(near, n, i), Select(near, Child(n, i)));
  }
}
