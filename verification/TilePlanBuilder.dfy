/** Turns the tiles of a point-budget plan into a tile plan with all their ancestors. */
module TilePlanBuilder {
  import opened Seqs
  import opened TileIds
  import opened Quadtree
  import opened TilePlan
  import opened Router

  /** `id` is the leaf itself or one of its ancestors down from level zero. */
  predicate OnPath(id: TileId, leaf: PointBudgetTile)
  {
    id.level >= 0 && Above(id, leaf.id)
  }

  predicate OnSomePath(id: TileId, leaves: seq<PointBudgetTile>)
  {
    exists k :: 0 <= k < |leaves| && OnPath(id, leaves[k])
  }

  /** The child of `id` on the way down to `leaf`. */
  function Toward(id: TileId, leaf: PointBudgetTile): TileId
    requires id.level < leaf.id.level
  {
    Up(leaf.id, leaf.id.level - id.level - 1)
  }

  function FreshNode(id: TileId): TilePlanNode
  {
    TilePlanNode(id, Nowhere, 0, NO_TILE, [], [], false)
  }

  function WithChild(children: seq<TileId>, child: TileId): seq<TileId>
  {
    if child in children then children else children + [child]
  }

  function WithBox(bounds: Bounds, box: Box): Bounds
  {
    bounds.Expand(Vec3(box.minX, box.minY, 0.0)).Expand(Vec3(box.maxX, box.maxY, 0.0))
  }

  /** A node on the leaf's path once the path is followed down through the levels below `depth`. */
  function Touched(n: TilePlanNode, leaf: PointBudgetTile, depth: nat): TilePlanNode
  {
    if n.id.level >= depth then n
    else n.(pointCount := n.pointCount + leaf.pointCount,
            bounds := WithBox(n.bounds, leaf.box),
            parent := if n.id.level > 0 then Parent(n.id) else n.parent,
            children := if n.id.level + 1 < depth && n.id.level < leaf.id.level
                        then WithChild(n.children, Toward(n.id, leaf)) else n.children)
  }

  /** The node for `id` once the paths of all `leaves` are followed. */
  function NodeFor(leaves: seq<PointBudgetTile>, id: TileId): (n: TilePlanNode)
    ensures n.id == id
  {
    if leaves == [] then FreshNode(id)
    else
      var leaf := leaves[|leaves| - 1];
      var n := NodeFor(leaves[..|leaves| - 1], id);
      if OnPath(id, leaf) && leaf.id.level >= 0
      then Touched(n, leaf, leaf.id.level + 1).(isLeaf := n.isLeaf || id == leaf.id)
      else n
  }

  const NODE_KEY: TilePlanNode -> TileId := (n: TilePlanNode) => n.id

  const PLANNER_ID := "adaptive-point-budget"
  const PLANNER_VERSION := 1

  class TilePlanBuilder {
    var nodes: seq<TilePlanNode>
    var nodeIndices: map<TileId, nat>

    /** The index finds every node under its own identity. */
    ghost predicate Valid()
      reads this
    {
      && (forall id :: id in nodeIndices ==> nodeIndices[id] < |nodes| && nodes[nodeIndices[id]].id == id)
      && (forall k :: 0 <= k < |nodes| ==> nodes[k].id in nodeIndices && nodeIndices[nodes[k].id] == k)
    }

    ghost function Has(id: TileId): bool
      reads this
    {
      id in nodeIndices
    }

    /** The node for `id`, or the node that would be added for it. */
    ghost function NodeOf(id: TileId): TilePlanNode
      requires Valid()
      reads this
    {
      if id in nodeIndices then nodes[nodeIndices[id]] else FreshNode(id)
    }

    constructor ()
      ensures Valid() && nodes == [] && nodeIndices == map[]
    {
      nodes, nodeIndices := [], map[];
    }

    method AddNode(id: TileId) returns (k: nat)
      requires Valid()
      modifies this
      ensures Valid() && k < |nodes| && nodes[k].id == id
      ensures forall o :: NodeOf(o) == old(NodeOf(o))
      ensures forall o :: Has(o) <==> old(Has(o)) || o == id
    {
      if id in nodeIndices {
        k := nodeIndices[id];
      } else {
        k := |nodes|;
        nodeIndices := nodeIndices[id := k];
        nodes := nodes + [FreshNode(id)];
      }
    }

    /** Replaces the node at `k` by one with the same identity. */
    method SetNode(k: nat, n: TilePlanNode)
      requires Valid() && k < |nodes| && nodes[k].id == n.id
      modifies this
      ensures Valid() && |nodes| == |old(nodes)| && nodeIndices == old(nodeIndices)
      ensures forall o :: NodeOf(o) == if o == n.id then n else old(NodeOf(o))
      ensures forall o :: Has(o) <==> old(Has(o))
    {
      nodes := nodes[k := n];
    }
  }

  /** The path from level zero down to the leaf. */
  method PathTo(id: TileId) returns (path: seq<TileId>)
    requires id.level >= 0
    ensures |path| == id.level + 1
    ensures forall k :: 0 <= k < |path| ==> path[k] == Up(id, id.level - k)
  {
    var current := id;
    path := [current];
    while current.level != 0
      invariant 0 <= current.level <= id.level && |path| == id.level - current.level + 1
      invariant current == Up(id, id.level - current.level)
      invariant forall k :: 0 <= k < |path| ==> path[k] == Up(id, id.level - current.level - k)
      decreases current.level
    {
      UpUp(id, id.level - current.level, 1);
      assert Up(current, 1) == Parent(current);
      current := Parent(current);
      path := [current] + path;
    }
  }

  /** What the step down to path[depth] does to the node for `id`. */
  function Stepped(n: TilePlanNode, leaf: PointBudgetTile, path: seq<TileId>, depth: nat): TilePlanNode
    requires depth < |path|
  {
    if n.id == path[depth] then
      n.(pointCount := n.pointCount + leaf.pointCount, bounds := WithBox(n.bounds, leaf.box),
         parent := if depth > 0 then path[depth - 1] else n.parent)
    else if depth > 0 && n.id == path[depth - 1] then
      n.(children := WithChild(n.children, path[depth]))
    else n
  }

  method FollowStep(b: TilePlanBuilder, leaf: PointBudgetTile, path: seq<TileId>, depth: nat)
    requires b.Valid() && depth < |path| && (depth > 0 ==> path[depth - 1] != path[depth] && b.Has(path[depth - 1]))
    modifies b
    ensures b.Valid()
    ensures forall id :: b.NodeOf(id) == Stepped(old(b.NodeOf(id)), leaf, path, depth)
    ensures forall id :: b.Has(id) <==> old(b.Has(id)) || id == path[depth]
  {
    var k := b.AddNode(path[depth]);
    var n := b.nodes[k];
    assert n == b.NodeOf(path[depth]);
    n := n.(pointCount := n.pointCount + leaf.pointCount, bounds := WithBox(n.bounds, leaf.box));
    if depth > 0 {
      n := n.(parent := path[depth - 1]);
    }
    b.SetNode(k, n);
    if depth > 0 {
      var p := b.AddNode(path[depth - 1]);
      var parent := b.nodes[p];
      assert parent == b.NodeOf(path[depth - 1]);
      b.SetNode(p, parent.(children := WithChild(parent.children, path[depth])));
    }
  }

  /** The leaf's path meets each level once. */
  lemma PathLevel(leaf: PointBudgetTile, path: seq<TileId>, depth: nat, id: TileId)
    requires leaf.id.level >= 0 && |path| == leaf.id.level + 1 && depth < |path|
    requires forall k :: 0 <= k < |path| ==> path[k] == Up(leaf.id, leaf.id.level - k)
    ensures path[depth].level == depth && (id == path[depth] <==> OnPath(id, leaf) && id.level == depth)
    ensures depth > 0 ==> path[depth - 1].level == depth - 1 && Parent(path[depth]) == path[depth - 1] && Toward(path[depth - 1], leaf) == path[depth]
  {
    if depth > 0 {
      UpUp(leaf.id, leaf.id.level - depth, 1);
      assert Up(path[depth], 1) == Parent(path[depth]);
    }
  }

  /** One step on `Touched`, node by node. */
  lemma TouchedNext(n: TilePlanNode, leaf: PointBudgetTile, path: seq<TileId>, depth: nat)
    requires leaf.id.level >= 0 && |path| == leaf.id.level + 1 && depth < |path|
    requires forall k :: 0 <= k < |path| ==> path[k] == Up(leaf.id, leaf.id.level - k)
    ensures Stepped(if OnPath(n.id, leaf) then Touched(n, leaf, depth) else n, leaf, path, depth)
         == if OnPath(n.id, leaf) then Touched(n, leaf, depth + 1) else n
  {
    PathLevel(leaf, path, depth, n.id);
    if depth > 0 {
      PathLevel(leaf, path, depth - 1, n.id);
    }
    hide Up;
  }

  /** The node for `id` while the leaf's path is followed down to level `depth`. */
  function Halfway(done: seq<PointBudgetTile>, leaf: PointBudgetTile, depth: nat, id: TileId): TilePlanNode
  {
    if OnPath(id, leaf) then Touched(NodeFor(done, id), leaf, depth) else NodeFor(done, id)
  }

  /** Follows one leaf's path from level zero down. */
  method AddLeaf(b: TilePlanBuilder, ghost done: seq<PointBudgetTile>, leaf: PointBudgetTile)
    requires b.Valid() && leaf.id.level >= 0
    requires forall id :: b.NodeOf(id) == NodeFor(done, id)
    requires forall id :: b.Has(id) <==> OnSomePath(id, done)
    modifies b
    ensures b.Valid()
    ensures forall id :: b.NodeOf(id) == NodeFor(done + [leaf], id)
    ensures forall id :: b.Has(id) <==> OnSomePath(id, done + [leaf])
  {
    hide Up, NodeFor, OnSomePath, OnPath, Touched, Stepped, Halfway;
    var path := PathTo(leaf.id);
    var depth := 0;
    HalfwayEnds(done, leaf, leaf.id);
    forall id
      ensures Halfway(done, leaf, 0, id) == NodeFor(done, id)
      ensures OnPath(id, leaf) ==> 0 <= id.level <= leaf.id.level
    {
      HalfwayEnds(done, leaf, id);
    }
    while depth < |path|
      invariant 0 <= depth <= |path| && b.Valid()
      invariant forall id :: b.NodeOf(id) == Halfway(done, leaf, depth, id)
      invariant forall id :: b.Has(id) <==> OnSomePath(id, done) || (OnPath(id, leaf) && id.level < depth)
    {
      forall id
        ensures Stepped(Halfway(done, leaf, depth, id), leaf, path, depth) == Halfway(done, leaf, depth + 1, id)
        ensures id == path[depth] <==> OnPath(id, leaf) && id.level == depth
        ensures depth > 0 ==> (id == path[depth - 1] <==> OnPath(id, leaf) && id.level == depth - 1)
      {
        HalfwayNext(done, leaf, path, depth, id);
      }
      FollowStep(b, leaf, path, depth);
      depth := depth + 1;
    }
    var k := b.AddNode(leaf.id);
    var n := b.nodes[k];
    assert n == b.NodeOf(leaf.id);
    b.SetNode(k, n.(isLeaf := true));
    forall id
      ensures NodeFor(done + [leaf], id)
           == if id == leaf.id then Halfway(done, leaf, |path|, id).(isLeaf := true) else Halfway(done, leaf, |path|, id)
      ensures OnSomePath(id, done + [leaf]) <==> OnSomePath(id, done) || OnPath(id, leaf)
      ensures OnPath(id, leaf) ==> 0 <= id.level <= leaf.id.level
    {
      HalfwayEnds(done, leaf, id);
    }
  }

  /** Before the first step nothing is touched; after the last, only the leaf's mark is missing. */
  lemma HalfwayEnds(done: seq<PointBudgetTile>, leaf: PointBudgetTile, id: TileId)
    requires leaf.id.level >= 0
    ensures Halfway(done, leaf, 0, id) == NodeFor(done, id)
    ensures OnSomePath(id, done + [leaf]) <==> OnSomePath(id, done) || OnPath(id, leaf)
    ensures OnPath(id, leaf) ==> 0 <= id.level <= leaf.id.level
    ensures OnPath(leaf.id, leaf)
    ensures var last := Halfway(done, leaf, leaf.id.level + 1, id);
      NodeFor(done + [leaf], id) == if id == leaf.id then last.(isLeaf := true) else last
  {
    NodeForNext(done, leaf, id);
  }

  lemma HalfwayNext(done: seq<PointBudgetTile>, leaf: PointBudgetTile, path: seq<TileId>, depth: nat, id: TileId)
    requires leaf.id.level >= 0 && |path| == leaf.id.level + 1 && depth < |path|
    requires forall k :: 0 <= k < |path| ==> path[k] == Up(leaf.id, leaf.id.level - k)
    ensures Stepped(Halfway(done, leaf, depth, id), leaf, path, depth) == Halfway(done, leaf, depth + 1, id)
    ensures path[depth].level == depth && (id == path[depth] <==> OnPath(id, leaf) && id.level == depth)
    ensures depth > 0 ==> (id == path[depth - 1] <==> OnPath(id, leaf) && id.level == depth - 1)
  {
    hide Up, NodeFor, Touched, Stepped, OnPath;
    TouchedNext(NodeFor(done, id), leaf, path, depth);
    PathLevel(leaf, path, depth, id);
    if depth > 0 { PathLevel(leaf, path, depth - 1, id); }
  }

  lemma OnPathLevel(id: TileId, leaf: PointBudgetTile)
    ensures OnPath(id, leaf) ==> 0 <= id.level <= leaf.id.level
    ensures leaf.id.level >= 0 ==> OnPath(leaf.id, leaf)
  {
  }

  lemma NodeForNext(done: seq<PointBudgetTile>, leaf: PointBudgetTile, id: TileId)
    requires leaf.id.level >= 0
    ensures NodeFor(done + [leaf], id) ==
      if OnPath(id, leaf)
      then Touched(NodeFor(done, id), leaf, leaf.id.level + 1).(isLeaf := NodeFor(done, id).isLeaf || id == leaf.id)
      else NodeFor(done, id)
    ensures OnSomePath(id, done + [leaf]) <==> OnSomePath(id, done) || OnPath(id, leaf)
  {
    var next := done + [leaf];
    assert next[..|done|] == done;
    if OnSomePath(id, done) {
      var k :| 0 <= k < |done| && OnPath(id, done[k]);
      assert next[k] == done[k];
    }
    if OnPath(id, leaf) {
      assert next[|done|] == leaf;
    }
  }

  // ----- What the followed paths amount to

  /** The leaves at or below `id`. */
  function Below(leaves: seq<PointBudgetTile>, id: TileId): seq<PointBudgetTile>
  {
    Filter((t: PointBudgetTile) => OnPath(id, t), leaves)
  }

  predicate IsTile(leaves: seq<PointBudgetTile>, id: TileId)
  {
    exists k :: 0 <= k < |leaves| && leaves[k].id == id
  }

  predicate AllValid(leaves: seq<PointBudgetTile>)
  {
    forall k :: 0 <= k < |leaves| ==> leaves[k].IsValid()
  }

  lemma TowardLaws(id: TileId, leaf: PointBudgetTile)
    requires OnPath(id, leaf) && id.level < leaf.id.level
    ensures var c := Toward(id, leaf); c.level == id.level + 1 && Parent(c) == id && OnPath(c, leaf)
  {
    UpUp(leaf.id, leaf.id.level - id.level - 1, 1);
    assert Up(Toward(id, leaf), 1) == Parent(Toward(id, leaf));
  }

  lemma TowardOnly(c: TileId, leaf: PointBudgetTile)
    requires OnPath(c, leaf) && c.level > 0
    ensures OnPath(Parent(c), leaf) && Toward(Parent(c), leaf) == c
  {
    UpUp(leaf.id, leaf.id.level - c.level, 1);
    assert Up(c, 1) == Parent(c);
  }

  lemma SplitLast(leaves: seq<PointBudgetTile>)
    requires leaves != []
    ensures leaves == leaves[..|leaves| - 1] + [leaves[|leaves| - 1]]
  {
  }

  lemma BelowNext(leaves: seq<PointBudgetTile>, leaf: PointBudgetTile, id: TileId)
    ensures Below(leaves + [leaf], id) == Below(leaves, id) + (if OnPath(id, leaf) then [leaf] else [])
  {
    FilterAppend((t: PointBudgetTile) => OnPath(id, t), leaves, leaf);
  }

  lemma BelowSome(leaves: seq<PointBudgetTile>, id: TileId)
    ensures Below(leaves, id) != [] <==> OnSomePath(id, leaves)
  {
    if Below(leaves, id) != [] {
      var t := Below(leaves, id)[0];
      FilterMember((t: PointBudgetTile) => OnPath(id, t), leaves, t);
    }
    if OnSomePath(id, leaves) {
      var k :| 0 <= k < |leaves| && OnPath(id, leaves[k]);
      FilterMember((t: PointBudgetTile) => OnPath(id, t), leaves, leaves[k]);
    }
  }

  lemma CountsNext(tiles: seq<PointBudgetTile>, t: PointBudgetTile)
    ensures Sum(Counts(tiles + [t])) == Sum(Counts(tiles)) + t.pointCount
  {
    assert Counts(tiles + [t]) == Counts(tiles) + [t.pointCount];
    assert (Counts(tiles) + [t.pointCount])[..|tiles|] == Counts(tiles);
  }

  /** A node counts what the tiles at or below it count. */
  lemma {:induction false} CountLaw(leaves: seq<PointBudgetTile>, id: TileId)
    requires AllValid(leaves) && id.level >= 0
    ensures NodeFor(leaves, id).pointCount == Sum(Counts(Below(leaves, id)))
  {
    hide Up, OnPath;
    if leaves != [] {
      var m := |leaves| - 1;
      var leaf := leaves[m];
      CountLaw(leaves[..m], id);
      SplitLast(leaves);
      hide NodeFor, Below, Sum, Counts;
      NodeForNext(leaves[..m], leaf, id);
      OnPathLevel(id, leaf);
      BelowNext(leaves[..m], leaf, id);
      CountsNext(Below(leaves[..m], id), leaf);
      assert Below(leaves[..m], id) + [] == Below(leaves[..m], id);
    }
  }

  /** A node is a leaf exactly when a tile has its identity, names its parent, and has no source ranges. */
  lemma {:induction false} ShapeLaws(leaves: seq<PointBudgetTile>, id: TileId)
    requires AllValid(leaves) && id.level >= 0
    ensures var n := NodeFor(leaves, id);
      && (n.isLeaf <==> IsTile(leaves, id))
      && n.parent == (if id.level > 0 && OnSomePath(id, leaves) then Parent(id) else NO_TILE)
      && n.sourceRanges == []
      && (n.bounds.Nowhere? <==> !OnSomePath(id, leaves))
  {
    hide Up, OnPath;
    if leaves != [] {
      var m := |leaves| - 1;
      var leaf := leaves[m];
      ShapeLaws(leaves[..m], id);
      SplitLast(leaves);
      hide NodeFor, IsTile, OnSomePath;
      NodeForNext(leaves[..m], leaf, id);
      OnPathLevel(id, leaf);
      IsTileNext(leaves[..m], leaf, id);
    }
  }

  lemma IsTileNext(leaves: seq<PointBudgetTile>, leaf: PointBudgetTile, id: TileId)
    ensures IsTile(leaves + [leaf], id) <==> IsTile(leaves, id) || leaf.id == id
  {
    var next := leaves + [leaf];
    if IsTile(leaves, id) {
      var k :| 0 <= k < |leaves| && leaves[k].id == id;
      assert next[k].id == id;
    }
    if leaf.id == id {
      assert next[|leaves|].id == id;
    }
  }

  predicate IsChild(leaves: seq<PointBudgetTile>, id: TileId, c: TileId)
  {
    c.level == id.level + 1 && Parent(c) == id && OnSomePath(c, leaves)
  }

  /** A node's children are exactly the nodes one level down that lie on some path below it. */
  lemma {:induction false} ChildLaws(leaves: seq<PointBudgetTile>, id: TileId)
    requires AllValid(leaves) && id.level >= 0
    ensures Distinct(NodeFor(leaves, id).children)
    ensures forall c :: c in NodeFor(leaves, id).children <==> IsChild(leaves, id, c)
  {
    hide Up;
    if leaves != [] {
      var m := |leaves| - 1;
      var leaf := leaves[m];
      ChildLaws(leaves[..m], id);
      SplitLast(leaves);
      NodeForNext(leaves[..m], leaf, id);
      OnPathLevel(id, leaf);
      if OnPath(id, leaf) && id.level < leaf.id.level {
        TowardLaws(id, leaf);
      }
      forall c ensures c in NodeFor(leaves, id).children <==> IsChild(leaves, id, c) {
        NodeForNext(leaves[..m], leaf, c);
        OnPathLevel(c, leaf);
        if OnPath(c, leaf) && c.level > 0 {
          TowardOnly(c, leaf);
        }
      }
    }
  }

  /** A node's bounds are flat, and horizontally the hull of the tiles at or below it. */
  lemma {:induction false} BoundsLaws(leaves: seq<PointBudgetTile>, id: TileId)
    requires AllValid(leaves) && id.level >= 0 && OnSomePath(id, leaves)
    ensures Below(leaves, id) != []
    ensures var b := NodeFor(leaves, id).bounds;
      && b.IsValid() && HorizontalBox(b) == HullOfTiles(Below(leaves, id))
      && b.minimum.z == b.maximum.z == 0.0
    decreases leaves
  {
    hide Up, OnPath, NodeFor, Below, HullOfTiles;
    BelowSome(leaves, id);
    var m := |leaves| - 1;
    var leaf := leaves[m];
    SplitLast(leaves);
    NodeForNext(leaves[..m], leaf, id);
    ShapeLaws(leaves[..m], id);
    BelowSome(leaves[..m], id);
    OnPathLevel(id, leaf);
    BelowNext(leaves[..m], leaf, id);
    if OnSomePath(id, leaves[..m]) {
      BoundsLaws(leaves[..m], id);
      if OnPath(id, leaf) {
        HullOfTilesNext(Below(leaves[..m], id), leaf);
      } else {
        assert Below(leaves[..m], id) + [] == Below(leaves[..m], id);
      }
    } else if OnPath(id, leaf) {
      HullOfTilesNext([], leaf);
    }
  }

  lemma HullOfTilesNext(tiles: seq<PointBudgetTile>, t: PointBudgetTile)
    ensures HullOfTiles(tiles + [t]) == if tiles == [] then t.box else Join(HullOfTiles(tiles), t.box)
  {
    assert (tiles + [t])[..|tiles|] == tiles;
  }
}
