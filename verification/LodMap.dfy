/** The level-of-detail map of src/modules/lodmap/lodmap.c: selecting, loading,
    activating and dropping tiles while a pool of threads loads them. */
module LodMap {
  import opened Basics
  import opened Quadtrees
  import opened LodSelection
  import opened LodTiles
  import opened LodFringe

  class OpenGLLodMap {
    const viewingDistance: nat
    var root: Node
    var tiles: Tiles
    var loads: multiset<Node>   // pushed to the pool and not finished yet
    var selection: seq<Node>

    ghost predicate Valid()
      reads this
    {
      Good(root, tiles, loads)
    }

    /** A map over a quadtree shaped as configured; no tile is loaded. */
    constructor (root: Node, viewingDistance: nat)
      ensures Valid() && this.root == root && selection == []
    {
      this.root, this.viewingDistance := root, viewingDistance;
      tiles := map n | n in Subtree(root) :: NewTile();
      loads := multiset{};
      selection := [];
    }

    /** One load, by a thread of the pool or by the caller. */
    method LoadTile(node: Node)
      requires Valid() && node in loads
      modifies this`tiles, this`loads
      ensures Valid() && node in old(tiles) && old(tiles)[node].status.Loading?
      ensures tiles == old(tiles)[node := old(tiles)[node].(status := Ready, images := true)]
      ensures loads == old(loads) - multiset{node}
    {
      hide Good;
      GoodFacts(root, tiles, loads);
      assert tiles[node].status.Loading?;
      GoodChange(root, tiles, loads, node, tiles[node].(status := Ready, images := true), loads[node := 0]);
      tiles := tiles[node := tiles[node].(status := Ready, images := true)];
      loads := loads[node := 0];
    }

    /** Any number of loads finish before the main thread goes on. */
    method Workers()
      requires Valid()
      modifies this`tiles, this`loads
      ensures Valid() && AllSettled(old(tiles), tiles)
    {
      hide Good;
      var more: bool := *;
      while more && loads != multiset{}
        invariant Valid() && AllSettled(old(tiles), tiles)
        decreases |loads|
      {
        var node :| node in loads;
        LoadTile(node);
        more := *;
      }
    }

    /** Waits on the condition of the tile; the one load there is will end. */
    method WaitUntilLoaded(node: Node)
      requires Valid() && node in tiles
      modifies this`tiles, this`loads
      ensures Valid() && AllSettled(old(tiles), tiles) && !tiles[node].status.Loading?
    {
      hide Good;
      Workers();
      if tiles[node].status.Loading? {
        GoodFacts(root, tiles, loads);
        LoadTile(node);
      }
    }

    /** Hands the tile to the loading pool. */
    method PushLoad(node: Node)
      requires Valid() && node in tiles
      requires tiles[node].status.Meta? || tiles[node].status.Inactive?
      modifies this`tiles, this`loads
      ensures Valid() && tiles == old(tiles)[node := old(tiles)[node].(status := Loading)]
      ensures loads == old(loads) + multiset{node}
    {
      hide Good;
      GoodFacts(root, tiles, loads);
      GoodChange(root, tiles, loads, node, tiles[node].(status := Loading), loads[node := 1]);
      tiles := tiles[node := tiles[node].(status := Loading)];
      loads := loads + multiset{node};
      assert loads == old(loads)[node := 1];
    }

    /** The range test; a tile without meta data is loaded on the spot. */
    method IntersectsSphere(near: Range, node: Node) returns (hit: bool)
      requires Valid() && node in tiles
      modifies this`tiles, this`loads
      ensures Valid() && hit == near(node)
      ensures tiles.Keys == old(tiles).Keys && !tiles[node].status.Inactive?
      ensures forall n :: n in tiles && n != node ==> Settled(old(tiles)[n], tiles[n])
      ensures if old(tiles)[node].status.Inactive? then tiles[node].status.Ready?
              else Settled(old(tiles)[node], tiles[node])
    {
      hide Good;
      Workers();
      if tiles[node].status.Inactive? {
        PushLoad(node);
        LoadTile(node);
      }
      hit := near(node);
    }

    method DeactivateTile(node: Node)
      requires Valid() && node in tiles && tiles[node].status.Active?
      modifies this`tiles
      ensures Valid() && tiles == old(tiles)[node := old(tiles)[node].(status := Ready, model := false)]
    {
      hide Good;
      GoodFacts(root, tiles, loads);
      assert tiles[node].model;
      GoodChange(root, tiles, loads, node, tiles[node].(status := Ready, model := false), loads);
      tiles := tiles[node := tiles[node].(status := Ready, model := false)];
    }

    method UnloadTile(node: Node)
      requires Valid() && node in tiles && tiles[node].status.Ready? && node != root
      modifies this`tiles
      ensures Valid() && tiles == old(tiles)[node := old(tiles)[node].(status := Meta, images := false)]
    {
      hide Good;
      GoodFacts(root, tiles, loads);
      assert tiles[node].images;
      GoodChange(root, tiles, loads, node, tiles[node].(status := Meta, images := false), loads);
      tiles := tiles[node := tiles[node].(status := Meta, images := false)];
    }

    /** Gets the data of an out-of-range node and drops that of its children. */
    method PreloadNode(node: Node)
      requires Valid() && node in tiles
      modifies this`tiles, this`loads
      ensures Valid() && tiles.Keys == old(tiles).Keys
      ensures forall n :: n in tiles && n !in Family(node) ==> Settled(old(tiles)[n], tiles[n])
      ensures Preloaded(old(tiles)[node], tiles[node])
      ensures forall k: nat :: node.level > 0 && k < 4 ==>
                Child(node, k) in tiles && Dropped(old(tiles)[Child(node, k)], tiles[Child(node, k)])
      ensures Fringe(tiles, node)
    {
      hide Good, Subtree, Preloaded, Dropped, Settled, Fringe;
      GoodFacts(root, tiles, loads);
      SettledReflexive();
      SettledTwice();
      PreloadTile(node);
      if node.level != 0 {
        ghost var t1 := tiles;
        forall k: nat | k < 4
          ensures Child(node, k) in tiles && Child(node, k) != node
        {
          ChildrenDiffer(node, k, k);
          ChildInTree(root, tiles, loads, node, k);
        }
        DropChildren(node);
        PreloadedNext(old(tiles)[node], t1[node], tiles[node]);
        forall k: nat | k < 4
          ensures Dropped(old(tiles)[Child(node, k)], tiles[Child(node, k)])
        {
          var c := Child(node, k);
          DroppedNext(old(tiles)[c], t1[c], tiles[c], tiles[c]);
        }
        assert forall n :: n in tiles && n !in Family(node) ==> Settled(t1[n], tiles[n]);
      }
      FringeOf(old(tiles), tiles, node);
    }

    method DropChildren(node: Node)
      requires Valid() && node in tiles && node.level > 0
      modifies this`tiles, this`loads
      ensures Valid() && tiles.Keys == old(tiles).Keys
      ensures forall n :: n in tiles && (n == node || n !in Family(node)) ==> Settled(old(tiles)[n], tiles[n])
      ensures forall k: nat :: k < 4 ==> Child(node, k) in tiles && Dropped(old(tiles)[Child(node, k)], tiles[Child(node, k)])
    {
      hide Good, Subtree, Dropped, Settled;
      GoodFacts(root, tiles, loads);
      forall k: nat | k < 4
        ensures Child(node, k) in tiles
      {
        ChildInTree(root, tiles, loads, node, k);
      }
      SettledReflexive();
      for i: nat := 0 to 4
        invariant Valid() && tiles.Keys == old(tiles).Keys
        invariant forall n :: n in tiles && (n == node || n !in Family(node)) ==> Settled(old(tiles)[n], tiles[n])
        invariant forall k: nat :: k < i ==> Dropped(old(tiles)[Child(node, k)], tiles[Child(node, k)])
        invariant forall k: nat :: i <= k < 4 ==> Settled(old(tiles)[Child(node, k)], tiles[Child(node, k)])
      {
        forall k: nat | k < 4
          ensures Child(node, k) == Child(node, i) <==> k == i
          ensures Child(node, k) != node
        {
          ChildrenDiffer(node, i, k);
        }
        ghost var t1 := tiles;
        UnloadChild(node, i);
        DroppedChildren(node, i, old(tiles), t1, tiles);
      }
    }

    method PreloadTile(node: Node)
      requires Valid() && node in tiles
      modifies this`tiles, this`loads
      ensures Valid() && tiles.Keys == old(tiles).Keys
      ensures forall n :: n in tiles && n != node ==> Settled(old(tiles)[n], tiles[n])
      ensures Preloaded(old(tiles)[node], tiles[node])
    {
      hide Good, Subtree;
      Workers();
      match tiles[node].status {
        case Active => DeactivateTile(node);
        case Inactive => PushLoad(node);
        case Meta => PushLoad(node);
        case _ =>
      }
    }

    method UnloadChild(node: Node, i: nat)
      requires Valid() && node in tiles && node.level > 0 && i < 4
      modifies this`tiles, this`loads
      ensures Valid() && tiles.Keys == old(tiles).Keys && Child(node, i) in tiles
      ensures forall n :: n in tiles && n != Child(node, i) ==> Settled(old(tiles)[n], tiles[n])
      ensures Dropped(old(tiles)[Child(node, i)], tiles[Child(node, i)])
    {
      hide Good, Subtree;
      GoodFacts(root, tiles, loads);
      ChildInTree(root, tiles, loads, node, i);
      var child := Child(node, i);
      Workers();
      match tiles[child].status {
        case Active =>
          DeactivateTile(child);
          UnloadTile(child);
        case Ready =>
          UnloadTile(child);
        case _ =>
      }
    }
 
    /** Selects the nodes to draw below `node`, setting what each draws, and
        gets the data of whatever may be needed. */
    method SelectNodes(near: Range, node: Node) returns (nodes: seq<Node>)
      requires Valid() && node in tiles && Arriving(tiles[node].status)
      modifies this`tiles, this`loads
      ensures Valid() && Elsewhere(old(tiles), tiles, node) && node in tiles && Arriving(tiles[node].status)
      ensures nodes == if !near(node) && node.level > viewingDistance then [] else Select(near, node)
      ensures Supported(tiles, node, nodes) && Marked(near, tiles, nodes)
      ensures near(node) || node.level <= viewingDistance ==> Surrounded(near, tiles, node)
      decreases node.level, 1
    {
      hide Good, Subtree, Select, SelectBelow, Supported, Marked, Up, Surrounded;
      SelectionBegins(near, tiles, node);
      var hit := IntersectsSphere(near, node);
      SelectionBegins(near, tiles, node);
      if !hit && node.level > viewingDistance {
        return [];
      }
      ghost var t1 := tiles;
      var mode;
      nodes, mode := SelectChildren(near, node);
      ElsewhereFrom(old(tiles), t1, tiles, node);
      SelectionEnds(near, tiles, node, mode);
      if mode != DRAW_NONE {
        GoodFacts(root, tiles, loads);
        GoodChange(root, tiles, loads, node, tiles[node].(drawMode := mode), loads);
        ghost var t2 := tiles;
        tiles := tiles[node := tiles[node].(drawMode := mode)];
        ElsewhereFrom(old(tiles), t2, tiles, node);
        SurroundedKept(near, t2, tiles, node);
        if tiles[node].status.Meta? {
          assert false;  // the node was needed, so its data is arriving already
        }
        nodes := nodes + [node];
      }
    }

    /** The loop over the children: what they select, and what is left for the
        node itself to draw. */
    method SelectChildren(near: Range, node: Node) returns (nodes: seq<Node>, mode: bv4)
      requires Valid() && node in tiles && Arriving(tiles[node].status)
      modifies this`tiles, this`loads
      ensures Valid() && Elsewhere(old(tiles), tiles, node) && Arriving(tiles[node].status)
      ensures nodes == if node.level == 0 then [] else SelectBelow(near, node, 4)
      ensures Supported(tiles, node, nodes) && Marked(near, tiles, nodes)
      ensures forall k: nat :: k < 4 ==> (Shows(mode, k) <==> Draws(near, node, k))
      ensures Surrounded(near, tiles, node)
      decreases node.level, 0
    {
      hide Good, Subtree, Select, SelectBelow, Supported, Marked, Up, Shows, Draws, Fringe, Surrounded, Bordered;
      SelectionBegins(near, tiles, node);
      nodes, mode := [], DRAW_ALL;
      DrawAll(near, node);
      SurroundedLeaf(near, tiles, node);
      if node.level != 0 {
        BorderedFirst(near, tiles, node);
        for i: nat := 0 to 4
          invariant Valid() && Elsewhere(old(tiles), tiles, node) && Arriving(tiles[node].status)
          invariant nodes == SelectBelow(near, node, i)
          invariant Supported(tiles, node, nodes) && Marked(near, tiles, nodes)
          invariant Masked(near, node, i, mode) && Bordered(near, tiles, node, i)
        {
          ghost var t1 := tiles;
          var more, hit := SelectChild(near, node, i);
          NextChild(near, old(tiles), t1, tiles, node, i);
          BorderedNext(near, t1, tiles, node, i);
          SelectNext(near, node, i);
          MaskChild(near, node, i, mode);
          if hit {
            mode := mode ^ DrawModeForIndex(i);
            SupportedByParent(near, tiles, node, i);
          } else {
            assert nodes + more == nodes;
          }
          nodes := nodes + more;
        }
        SurroundedBordered(near, tiles, node);
      }
    }

    /** One child: its selection if it is in range, or else its preloading. */
    method SelectChild(near: Range, node: Node, i: nat) returns (nodes: seq<Node>, hit: bool)
      requires Valid() && node in tiles && node.level > 0 && i < 4
      modifies this`tiles, this`loads
      ensures Valid() && Elsewhere(old(tiles), tiles, Child(node, i))
      ensures hit == near(Child(node, i))
      ensures nodes == if hit then Select(near, Child(node, i)) else []
      ensures Supported(tiles, Child(node, i), nodes) && Marked(near, tiles, nodes)
      ensures if hit then Surrounded(near, tiles, Child(node, i)) else Fringe(tiles, Child(node, i))
      decreases node.level - 1, 2
    {
      hide Good, Subtree, Select, SelectBelow, Supported, Marked, Up, Shows, Draws, Surrounded, Fringe;
      var child := Child(node, i);
      ChildInTree(root, tiles, loads, node, i);
      hit := IntersectsSphere(near, child);
      ghost var t1 := tiles;
      SelectionBegins(near, tiles, child);
      nodes := [];
      if hit {
        if tiles[child].status.Meta? {
          PushLoad(child);
        }
        nodes := SelectNodes(near, child);
      } else {
        PreloadNode(child);
        FamilyInside(child);
        SelectionBegins(near, tiles, child);
      }
      ElsewhereFrom(old(tiles), t1, tiles, child);
    }
 
    /** Builds the model of a loaded tile, after that of its parent, whose
        textures it uses. */
    method ActivateTile(node: Node)
      requires Valid() && node in tiles && tiles[node].status.Ready?
      requires Supported(tiles, root, [node])
      modifies this`tiles, this`loads
      ensures Valid() && AllAdvanced(old(tiles), tiles)
      ensures node in tiles && tiles[node].status.Active? && tiles[node].model
      ensures forall n :: n in old(tiles) && n !in Up(root, node) ==> Still(old(tiles)[n], tiles[n])
      decreases root.level - node.level, 0
    {
      hide Good, Subtree, Up;
      UpSelf(root, tiles, loads, node);
      assert tiles[node].status.Ready?;
      AdvancedReflexive(tiles);
      if node != root {
        BelowRoot(root, tiles, loads, node);
        ActivateParent(node);
      }
      GoodFacts(root, tiles, loads);
      GoodChange(root, tiles, loads, node, tiles[node].(status := Active, model := true, visible := false), loads);
      tiles := tiles[node := tiles[node].(status := Active, model := true, visible := false)];
    }

    method ActivateParent(node: Node)
      requires Valid() && node in tiles && node != root && node.level < root.level
      requires Supported(tiles, root, [node])
      modifies this`tiles, this`loads
      ensures Valid() && AllAdvanced(old(tiles), tiles)
      ensures forall n :: n in old(tiles) && n !in Up(root, node) ==> Still(old(tiles)[n], tiles[n])
      decreases root.level - node.level - 1, 1
    {
      hide Good, Subtree, Up, Supported;
      var parent, i := FindParent(node);
      SupportedParent(root, tiles, parent, i);
      UpOfParent(root, parent, i);
      WaitUntilLoaded(parent);
      AllSettledAdvanced(old(tiles), tiles);
      if !tiles[parent].status.Active? {
        ghost var t1 := tiles;
        AdvancedSupported(root, old(tiles), tiles, [parent]);
        SupportedArrives(root, tiles, parent);
        ActivateTile(parent);
        AdvancedTransitive(old(tiles), t1, tiles);
      }
    }

    /** The parent pointer of a node below the root. */
    method FindParent(node: Node) returns (parent: Node, i: nat)
      requires Valid() && node in tiles && node != root
      ensures parent in tiles && parent in Subtree(root) && parent.level == node.level + 1 && i < 4
      ensures parent.level > 0 && Child(parent, i) == node && root.level > node.level
    {
      ghost var p, k := ParentInTree(root, node);
      SubtreeInside(root, p);
      assert 0 <= k < 4 && p in tiles && p.level == node.level + 1 && Child(p, k) == node;
      var found :| found in tiles && found.level == node.level + 1 && exists j :: 0 <= j < 4 && Child(found, j) == node;
      parent := found;
      i :| 0 <= i < 4 && Child(found, i) == node;
    }

    /** Expands the tree until it covers a point, if asked to, and brings the
        tiles selected for the new viewer position to the screen. */
    method Update(near: Range, autoExpand: bool, px: real, py: real)
      requires Valid()
      modifies this
      ensures Valid()
      ensures if autoExpand then Expanded(old(root), root, px, py) else root == old(root)
      ensures selection == if near(root) then Select(near, root) else []
      ensures Marked(near, tiles, selection)
      ensures forall n :: n in selection ==> OnScreen(tiles, n)
      ensures near(root) ==> forall qx, qy :: Drawn(tiles, selection, qx, qy) == One(Contains(root, qx, qy))
      ensures near(root) ==> Surrounded(near, tiles, root)
    {
      hide Good, Subtree, Up, Select, Supported, Marked, Expanded, Surrounded;
      if autoExpand {
        ExpandQuadtree(px, py);
      }
      selection := [];
      SelectionBegins(near, tiles, root);
      RootFacts(root, tiles, loads);
      var hit := IntersectsSphere(near, root);
      RootFacts(root, tiles, loads);
      SelectionBegins(near, tiles, root);
      if hit {
        selection := SelectNodes(near, root);
        SelectedInTree(near, root);
        ShowSelection(near);
        DrawnExactly(near, tiles, root);
      }
    }

    /** Makes all selected nodes visible, each once its data is there. */
    method ShowSelection(ghost near: Range)
      requires Valid()
      requires Supported(tiles, root, selection) && Marked(near, tiles, selection)
      requires selection == Select(near, root) && Surrounded(near, tiles, root)
      requires forall n :: n in selection ==> n in Subtree(root)
      modifies this`tiles, this`loads
      ensures Valid() && Marked(near, tiles, selection) && Surrounded(near, tiles, root)
      ensures forall n :: n in selection ==> OnScreen(tiles, n)
    {
      hide Good, Subtree, Up, Supported, Marked, OnScreen, Select, Surrounded;
      var next := 0;
      while next < |selection|
        invariant next <= |selection| && Valid()
        invariant Supported(tiles, root, selection) && Marked(near, tiles, selection) && Surrounded(near, tiles, root)
        invariant forall j :: 0 <= j < next ==> OnScreen(tiles, selection[j])
      {
        ghost var t1 := tiles;
        ShowTile(selection[next], near);
        next := next + 1;
      }
    }

    method ShowTile(node: Node, ghost near: Range)
      requires Valid() && node in selection && node in Subtree(root)
      requires Supported(tiles, root, selection) && Marked(near, tiles, selection)
      requires node in Select(near, root) && Surrounded(near, tiles, root)
      modifies this`tiles, this`loads
      ensures Valid() && OnScreen(tiles, node) && Surrounded(near, tiles, root)
      ensures Supported(tiles, root, selection) && Marked(near, tiles, selection)
      ensures forall n :: OnScreen(old(tiles), n) ==> OnScreen(tiles, n)
    {
      hide Good, Subtree, Up, Supported, Marked, Select, Surrounded;
      SupportedOne(root, tiles, selection, node);
      SupportedArrives(root, tiles, node);
      UpSelf(root, tiles, loads, node);
      WaitUntilLoaded(node);
      ghost var t1 := tiles;
      AllSettledAdvanced(old(tiles), tiles);
      AdvancedSupported(root, old(tiles), tiles, [node]);
      if !tiles[node].status.Active? {
        ActivateTile(node);
        AdvancedTransitive(old(tiles), t1, tiles);
      }
      AdvancedSupported(root, old(tiles), tiles, selection);
      AdvancedMarked(near, old(tiles), tiles, selection);
      SupportedShown(root, near, tiles, selection, node);
      GoodFacts(root, tiles, loads);
      GoodChange(root, tiles, loads, node, tiles[node].(visible := true), loads);
      tiles := tiles[node := tiles[node].(visible := true)];
      SurroundedShown(near, old(tiles), tiles, root, node);
    }

    /** Puts roots above the root until the square covers the point; every node
        that was there keeps its place and its tile. */
    method ExpandQuadtree(px: real, py: real)
      requires Valid()
      modifies this`root, this`tiles
      ensures Valid() && Expanded(old(root), root, px, py)
      ensures old(root) in Subtree(root) && Kept(old(tiles), tiles)
      ensures Contains(old(root), px, py) ==> root == old(root) && tiles == old(tiles)
      decreases Distance(root, px, py)
    {
      hide Good, Subtree, Expanded;
      KeptReflexive(tiles);
      RootInTree(root);
      if Contains(root, px, py) {
        ExpandedNot(root, px, py);
        return;
      }
      var isLowerX, isLowerY := px < root.x as real, py < root.y as real;
      var scale := Scale(root.level);
      var newRoot := Node(if isLowerX then root.x - scale else root.x,
                          if isLowerY then root.y - scale else root.y, root.level + 1);
      ghost var i := (if isLowerX then 1 else 0) + (if isLowerY then 2 else 0);
      assert Child(newRoot, i) == root;
      Closer(root, newRoot, px, py);
      ghost var oldRoot, t0 := root, tiles;
      NewRoot(root, tiles, loads, newRoot, i);
      tiles := tiles[newRoot := NewTile()];
      root := newRoot;
      FillTreeNodes(newRoot);
      GoodGrown(oldRoot, t0, loads, newRoot, tiles);
      ghost var t1 := tiles;
      ExpandQuadtree(px, py);
      KeptTransitive(old(tiles), t1, tiles);
      SubtreeTransitive(root, newRoot);
      ExpandedNext(old(root), newRoot, i, root, px, py);
    }

    /** Creates the missing nodes below `node`. */
    method FillTreeNodes(node: Node)
      requires node in tiles
      modifies this`tiles
      ensures tiles.Keys == old(tiles).Keys + Subtree(node) && Kept(old(tiles), tiles)
      decreases node.level
    {
      hide Subtree, Kept;
      KeptReflexive(tiles);
      if node.level == 0 {
        LeafTree(node);
        return;
      }
      for i: nat := 0 to 4
        invariant node in tiles && Kept(old(tiles), tiles)
        invariant tiles.Keys == old(tiles).Keys + Filled(node, i)
      {
        if Child(node, i) !in tiles {
          KeptCreated(old(tiles), tiles, Child(node, i));
          tiles := tiles[Child(node, i) := NewTile()];
        }
        ghost var created := tiles;
        FillTreeNodes(Child(node, i));
        KeptTransitive(old(tiles), created, tiles);
        RootInTree(Child(node, i));
      }
      FilledAll(node);
    }
  }
}
