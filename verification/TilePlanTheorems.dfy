/** When a tile plan can be built from tiles, and what the plan built for a point set is. */
module TilePlanTheorems {
  import opened Seqs
  import opened TileIds
  import opened Quadtree
  import opened QuadtreeLaws
  import opened TilePlan
  import opened TilePlanBuilder
  import opened Router
  import opened PlanTheorems
  import opened InMemoryPlanner

  /** `nodes` are the ancestors-or-self of the tiles, each once, in ascending order. */
  ghost predicate Built(tiles: seq<PointBudgetTile>, nodes: seq<TilePlanNode>)
  {
    && SortedBy(NODE_KEY, nodes) && UniqueUpTo(nodes, |nodes|)
    && (forall k :: 0 <= k < |nodes| ==> OnSomePath(nodes[k].id, tiles) && nodes[k] == NodeFor(tiles, nodes[k].id))
    && (forall id :: OnSomePath(id, tiles) ==> exists k :: 0 <= k < |nodes| && nodes[k].id == id)
  }

  /** No tile lies strictly above another. */
  predicate NoTileAbove(tiles: seq<PointBudgetTile>)
  {
    forall i, j :: 0 <= i < |tiles| && 0 <= j < |tiles| && tiles[i].id != tiles[j].id
      ==> !Above(tiles[i].id, tiles[j].id)
  }

  function Top(id: TileId): TileId
    requires id.level >= 0
  {
    Up(id, id.level)
  }

  /** All tiles lie below one tile of level zero. */
  predicate OneTop(tiles: seq<PointBudgetTile>)
    requires AllValid(tiles)
  {
    forall i, j :: 0 <= i < |tiles| && 0 <= j < |tiles| ==> Top(tiles[i].id) == Top(tiles[j].id)
  }

  function PlanWith(nodes: seq<TilePlanNode>): TilePlan
  {
    TilePlan(PLANNER_ID, PLANNER_VERSION, nodes)
  }

  lemma HasChildren(tiles: seq<PointBudgetTile>, id: TileId)
    requires AllValid(tiles) && id.level >= 0
    ensures NodeFor(tiles, id).children != []
      <==> exists k :: 0 <= k < |tiles| && OnPath(id, tiles[k]) && id.level < tiles[k].id.level
  {
    hide Up, NodeFor, OnPath;
    ChildLaws(tiles, id);
    var children := NodeFor(tiles, id).children;
    if children != [] {
      assert IsChild(tiles, id, children[0]);
      var k :| 0 <= k < |tiles| && OnPath(children[0], tiles[k]);
      OnPathLevel(children[0], tiles[k]);
      TowardOnly(children[0], tiles[k]);
    }
    if k :| 0 <= k < |tiles| && OnPath(id, tiles[k]) && id.level < tiles[k].id.level {
      TowardLaws(id, tiles[k]);
      assert IsChild(tiles, id, Toward(id, tiles[k]));
    }
  }

  lemma {:induction false} CountsPositive(tiles: seq<PointBudgetTile>)
    requires tiles != [] && AllValid(tiles)
    ensures Sum(Counts(tiles)) > 0
  {
    var m := |tiles| - 1;
    assert tiles == tiles[..m] + [tiles[m]];
    CountsNext(tiles[..m], tiles[m]);
  }

  /** The node for an identity on some path is valid unless it is a tile above another tile. */
  lemma NodeValidity(tiles: seq<PointBudgetTile>, id: TileId)
    requires AllValid(tiles) && OnSomePath(id, tiles)
    ensures NodeFor(tiles, id).IsValid() <==> !(IsTile(tiles, id) && NodeFor(tiles, id).children != [])
  {
    hide Up, NodeFor, Below, Sum, Counts, IsTile;
    var k :| 0 <= k < |tiles| && OnPath(id, tiles[k]);
    ShapeLaws(tiles, id);
    BoundsLaws(tiles, id);
    CountLaw(tiles, id);
    var below := Below(tiles, id);
    forall i | 0 <= i < |below| ensures below[i].IsValid() {
      BelowMember(tiles, id, below[i]);
    }
    CountsPositive(below);
  }

  lemma BelowMember(tiles: seq<PointBudgetTile>, id: TileId, t: PointBudgetTile)
    ensures t in Below(tiles, id) <==> t in tiles && OnPath(id, t)
  {
    FilterMember((t: PointBudgetTile) => OnPath(id, t), tiles, t);
  }

  /** Parents and children of the followed paths always match. */
  lemma BuiltNodeOk(tiles: seq<PointBudgetTile>, nodes: seq<TilePlanNode>, k: nat)
    requires AllValid(tiles) && Built(tiles, nodes) && k < |nodes|
    ensures NodeOk(nodes, nodes[k])
  {
    hide Up, NodeFor, OnPath, SortedBy, UniqueUpTo;
    var n := nodes[k];
    var id := n.id;
    var t :| 0 <= t < |tiles| && OnPath(id, tiles[t]);
    OnPathLevel(id, tiles[t]);
    ShapeLaws(tiles, id);
    ChildLaws(tiles, id);
    if id.level > 0 {
      TowardOnly(id, tiles[t]);
      assert OnSomePath(Parent(id), tiles);
      var p :| 0 <= p < |nodes| && nodes[p].id == Parent(id);
      ChildLaws(tiles, Parent(id));
      assert IsChild(tiles, Parent(id), id);
    }
    forall c | 0 <= c < |n.children| ensures ChildOk(nodes, n, n.children[c]) {
      var child := n.children[c];
      assert IsChild(tiles, id, child);
      ShapeLaws(tiles, child);
    }
    if id.level == tiles[t].id.level {
      SameLevelOnPath(id, tiles[t]);
      assert IsTile(tiles, id);
    }
    HasChildren(tiles, id);
  }

  lemma SameLevelOnPath(id: TileId, t: PointBudgetTile)
    requires OnPath(id, t) && id.level == t.id.level
    ensures id == t.id
  {
  }

  lemma BuiltRoots(tiles: seq<PointBudgetTile>, nodes: seq<TilePlanNode>, k: nat)
    requires AllValid(tiles) && Built(tiles, nodes) && k < |nodes|
    ensures IsRoot(nodes[k]) <==> nodes[k].id.level == 0
    ensures nodes[k].id.level == 0 ==> exists t :: 0 <= t < |tiles| && nodes[k].id == Top(tiles[t].id)
  {
    assert OnSomePath(nodes[k].id, tiles);
    var t :| 0 <= t < |tiles| && OnPath(nodes[k].id, tiles[t]);
    ShapeLaws(tiles, nodes[k].id);
  }

  lemma TopOnPath(t: PointBudgetTile)
    requires t.id.level >= 0
    ensures OnPath(Top(t.id), t)
  {
  }

  /** The top of a tile's path is a root. */
  lemma TopIsRoot(tiles: seq<PointBudgetTile>, nodes: seq<TilePlanNode>, t: nat) returns (k: nat)
    requires AllValid(tiles) && Built(tiles, nodes) && t < |tiles|
    ensures k < |nodes| && nodes[k].id == Top(tiles[t].id) && IsRoot(nodes[k])
  {
    TopOnPath(tiles[t]);
    TopLevelZero(tiles[t].id);
    assert OnSomePath(Top(tiles[t].id), tiles);
    k :| 0 <= k < |nodes| && nodes[k].id == Top(tiles[t].id);
    BuiltRoots(tiles, nodes, k);
  }

  lemma OneRootOneTop(tiles: seq<PointBudgetTile>, nodes: seq<TilePlanNode>)
    requires AllValid(tiles) && Built(tiles, nodes) && RootCount(nodes) == 1
    ensures OneTop(tiles)
  {
    hide Up, NodeFor, OnPath, RootCount, Top, SortedBy, Built;
    forall i, j | 0 <= i < |tiles| && 0 <= j < |tiles| ensures Top(tiles[i].id) == Top(tiles[j].id) {
      var a := TopIsRoot(tiles, nodes, i);
      var b := TopIsRoot(tiles, nodes, j);
      OneRoot(nodes, a, b);
    }
  }

  lemma OneTopOneRoot(tiles: seq<PointBudgetTile>, nodes: seq<TilePlanNode>)
    requires AllValid(tiles) && Built(tiles, nodes) && OneTop(tiles) && nodes != []
    ensures RootCount(nodes) == 1
  {
    hide Up, NodeFor, OnPath, RootCount, Top, SortedBy;
    assert OnSomePath(nodes[0].id, tiles);
    var root := TopIsRoot(tiles, nodes, 0);
    forall j | 0 <= j < |nodes| ensures IsRoot(nodes[j]) <==> j == root {
      BuiltRoots(tiles, nodes, j);
      if IsRoot(nodes[j]) {
        FirstIsOnly(nodes, root, j);
      }
    }
    RootCountOne(nodes, root);
  }

  lemma BuiltHasOneRoot(tiles: seq<PointBudgetTile>, nodes: seq<TilePlanNode>)
    requires AllValid(tiles) && Built(tiles, nodes) && nodes != []
    ensures RootCount(nodes) == 1 <==> OneTop(tiles)
  {
    hide *;
    if RootCount(nodes) == 1 { OneRootOneTop(tiles, nodes); }
    if OneTop(tiles) { OneTopOneRoot(tiles, nodes); }
  }

  lemma TopLevelZero(id: TileId)
    requires id.level >= 0
    ensures Top(id).level == 0
  {
  }

  lemma PlannerInOneLine()
    ensures SingleLine(PLANNER_ID)
  {
  }

  /** The plan built from valid tiles passes the checks exactly when no tile lies above another and all
      lie below one tile of level zero. */
  lemma BuiltPlanChecked(tiles: seq<PointBudgetTile>, nodes: seq<TilePlanNode>)
    requires AllValid(tiles) && Built(tiles, nodes)
    ensures LocallyChecked(PlanWith(nodes)) <==> NoTileAbove(tiles) && OneTop(tiles)
  {
    hide Up, NodeFor, NodeOk, SortedBy, RootCount, Top, OneTop, Above, OnSomePath, SingleLine;
    PlannerInOneLine();
    forall n | n in nodes ensures NodeOk(nodes, n) {
      var k :| 0 <= k < |nodes| && nodes[k] == n;
      BuiltNodeOk(tiles, nodes, k);
    }
    if nodes != [] {
      BuiltHasOneRoot(tiles, nodes);
    } else {
      NoNodesNoTiles(tiles, nodes);
    }
    BuiltNodesValid(tiles, nodes);
  }

  lemma NoNodesNoTiles(tiles: seq<PointBudgetTile>, nodes: seq<TilePlanNode>)
    requires AllValid(tiles) && Built(tiles, nodes) && nodes == []
    ensures OneTop(tiles)
  {
    if tiles != [] {
      TopOnPath(tiles[0]);
      assert OnSomePath(Top(tiles[0].id), tiles);
      assert false;
    }
  }

  lemma BuiltNodesValid(tiles: seq<PointBudgetTile>, nodes: seq<TilePlanNode>)
    requires AllValid(tiles) && Built(tiles, nodes)
    ensures (forall n :: n in nodes ==> n.IsValid()) <==> NoTileAbove(tiles)
  {
    hide Up, NodeFor, SortedBy, UniqueUpTo;
    if NoTileAbove(tiles) {
      forall n | n in nodes ensures n.IsValid() {
        var k :| 0 <= k < |nodes| && nodes[k] == n;
        NodeValidity(tiles, n.id);
        HasChildren(tiles, n.id);
      }
    }
    if forall n :: n in nodes ==> n.IsValid() {
      forall i, j | 0 <= i < |tiles| && 0 <= j < |tiles| && tiles[i].id != tiles[j].id
        ensures !Above(tiles[i].id, tiles[j].id)
      {
        if Above(tiles[i].id, tiles[j].id) {
          assert OnPath(tiles[i].id, tiles[j]);
          assert OnSomePath(tiles[i].id, tiles);
          var k :| 0 <= k < |nodes| && nodes[k].id == tiles[i].id;
          assert nodes[k] in nodes;
          NodeValidity(tiles, tiles[i].id);
          HasChildren(tiles, tiles[i].id);
          SameLevelAbove(tiles[i].id, tiles[j].id);
        }
      }
    }
  }

  lemma SameLevelAbove(a: TileId, b: TileId)
    requires Above(a, b) && a != b
    ensures a.level < b.level
  {
  }

  // ----- The builder

  method BuildTilePlan(tiles: seq<PointBudgetTile>) returns (plan: TilePlan, ok: bool)
    ensures ok <==> AllValid(tiles) && NoTileAbove(tiles) && OneTop(tiles)
    ensures ok ==> plan == TilePlan("adaptive-point-budget", 1, plan.nodes) && Built(tiles, plan.nodes) && LocallyChecked(plan)
    ensures !ok ==> plan == TilePlan("", 0, [])
  {
    hide NodeFor, OnSomePath, LocallyChecked, NoTileAbove, OneTop, Built;
    var b := new TilePlanBuilder();
    var k := 0;
    forall id ensures FreshNode(id) == NodeFor([], id) && !OnSomePath(id, []) {
      NothingFollowed(id);
    }
    while k < |tiles|
      invariant 0 <= k <= |tiles| && b.Valid() && fresh(b) && AllValid(tiles[..k])
      invariant forall id :: b.NodeOf(id) == NodeFor(tiles[..k], id)
      invariant forall id :: b.Has(id) <==> OnSomePath(id, tiles[..k])
    {
      if !tiles[k].IsValid() {
        return EMPTY_TILE_PLAN, false;
      }
      AddLeaf(b, tiles[..k], tiles[k]);
      assert tiles[..k + 1] == tiles[..k] + [tiles[k]];
      k := k + 1;
    }
    assert tiles[..k] == tiles;
    var nodes := Sort(NODE_KEY, b.nodes);
    SortedNodesBuilt(tiles, b, nodes);
    BuiltPlanChecked(tiles, nodes);
    plan := PlanWith(nodes);
    ok := ValidateTilePlan(plan);
    if !ok {
      plan := EMPTY_TILE_PLAN;
    }
  }

  lemma NothingFollowed(id: TileId)
    ensures FreshNode(id) == NodeFor([], id) && !OnSomePath(id, [])
  {
  }

  lemma SortedNodesBuilt(tiles: seq<PointBudgetTile>, b: TilePlanBuilder, nodes: seq<TilePlanNode>)
    requires b.Valid() && nodes == Sort(NODE_KEY, b.nodes)
    requires forall id :: b.NodeOf(id) == NodeFor(tiles, id)
    requires forall id :: b.Has(id) <==> OnSomePath(id, tiles)
    ensures Built(tiles, nodes)
  {
    hide NodeFor, OnSomePath, Sort;
    SortSorted(NODE_KEY, b.nodes);
    forall n ensures n in nodes <==> n in b.nodes {
      SortMember(NODE_KEY, b.nodes, n);
    }
    forall k | 0 <= k < |nodes| ensures OnSomePath(nodes[k].id, tiles) && nodes[k] == NodeFor(tiles, nodes[k].id) {
      assert nodes[k] in nodes;
      var j :| 0 <= j < |b.nodes| && b.nodes[j] == nodes[k];
      assert b.Has(nodes[k].id) && b.NodeOf(nodes[k].id) == nodes[k];
    }
    forall id | OnSomePath(id, tiles) ensures exists k :: 0 <= k < |nodes| && nodes[k].id == id {
      assert b.Has(id);
      assert b.nodes[b.nodeIndices[id]] in nodes;
    }
    assert UniqueBy(NODE_KEY, b.nodes);
    SortUnique(NODE_KEY, b.nodes);
    assert UniqueUpTo(nodes, |nodes|);
  }

  // ----- Counts add up at every inner node

  /** The children's point counts added up. */
  function ChildSum(tiles: seq<PointBudgetTile>, children: seq<TileId>): nat
  {
    if children == [] then 0
    else ChildSum(tiles, children[..|children| - 1]) + NodeFor(tiles, children[|children| - 1]).pointCount
  }

  /** One more tile adds to the one child on its path. */
  lemma {:induction false} ChildSumNext(tiles: seq<PointBudgetTile>, leaf: PointBudgetTile, children: seq<TileId>, c: TileId)
    requires leaf.id.level >= 0 && Distinct(children)
    requires forall d :: d in children ==> (OnPath(d, leaf) <==> d == c)
    ensures ChildSum(tiles + [leaf], children) == ChildSum(tiles, children) + if c in children then leaf.pointCount else 0
  {
    hide NodeFor, OnPath;
    if children != [] {
      var m := |children| - 1;
      var last := children[m];
      assert children == children[..m] + [last];
      ChildSumNext(tiles, leaf, children[..m], c);
      NodeForNext(tiles, leaf, last);
      OnPathLevel(last, leaf);
    }
  }

  lemma ChildSumAppend(tiles: seq<PointBudgetTile>, children: seq<TileId>, c: TileId)
    ensures ChildSum(tiles, children + [c]) == ChildSum(tiles, children) + NodeFor(tiles, c).pointCount
  {
    assert (children + [c])[..|children|] == children;
  }

  /** A node that is no tile itself counts exactly what its children count. */
  lemma {:induction false} InnerCountIsChildSum(tiles: seq<PointBudgetTile>, id: TileId)
    requires AllValid(tiles) && id.level >= 0 && !IsTile(tiles, id)
    ensures NodeFor(tiles, id).pointCount == ChildSum(tiles, NodeFor(tiles, id).children)
  {
    hide Up, OnPath, Below, Sum, Counts;
    if tiles != [] {
      var m := |tiles| - 1;
      var before, leaf := tiles[..m], tiles[m];
      SplitLast(tiles);
      IsTileNext(before, leaf, id);
      InnerCountIsChildSum(before, id);
      hide NodeFor, IsTile, ChildSum;
      NodeForNext(before, leaf, id);
      OnPathLevel(id, leaf);
      ChildLaws(before, id);
      var children := NodeFor(before, id).children;
      if OnPath(id, leaf) {
        if id.level == leaf.id.level { SameLevelOnPath(id, leaf); }
        var c := Toward(id, leaf);
        TowardLaws(id, leaf);
        forall d | d in children ensures OnPath(d, leaf) <==> d == c {
          assert IsChild(before, id, d);
          if OnPath(d, leaf) { TowardOnly(d, leaf); }
        }
        ChildSumNext(before, leaf, children, c);
        if c !in children {
          NotYetCounted(before, leaf, id, c);
          ChildSumAppend(tiles, children, c);
        }
      } else {
        forall d | d in children ensures !OnPath(d, leaf) && d != ROOT {
          assert IsChild(before, id, d);
          if OnPath(d, leaf) { TowardOnly(d, leaf); }
        }
        ChildSumNext(before, leaf, children, ROOT);
      }
    }
  }

  lemma NotYetCounted(before: seq<PointBudgetTile>, leaf: PointBudgetTile, id: TileId, c: TileId)
    requires AllValid(before) && id.level >= 0 && leaf.id.level >= 0 && OnPath(c, leaf)
    requires c !in NodeFor(before, id).children && c.level == id.level + 1 && Parent(c) == id
    ensures NodeFor(before + [leaf], c).pointCount == leaf.pointCount
  {
    hide Up, NodeFor, OnPath;
    ChildLaws(before, id);
    assert !IsChild(before, id, c);
    BelowSome(before, c);
    CountLaw(before, c);
    NodeForNext(before, leaf, c);
    OnPathLevel(c, leaf);
  }

  // ----- The tile plan routes like the budget plan it was built from

  ghost predicate UniqueTiles(tiles: seq<PointBudgetTile>)
  {
    forall i, j :: 0 <= i < j < |tiles| ==> tiles[i].id != tiles[j].id
  }

  /** Strictly ascending lists with the same members are the same list. */
  lemma {:induction false} AscendingUnique(a: seq<PointBudgetTile>, b: seq<PointBudgetTile>)
    requires SortedBy(TILE_KEY, a) && SortedBy(TILE_KEY, b) && UniqueTiles(a) && UniqueTiles(b)
    requires forall t :: t in a <==> t in b
    ensures a == b
  {
    assert |a| > 0 ==> a[0] in b;
    assert |b| > 0 ==> b[0] in a;
    if a != [] && b != [] {
      var m, n := |a| - 1, |b| - 1;
      assert a[m] in b && b[n] in a;
      LastIsGreatest(a, b[n]);
      LastIsGreatest(b, a[m]);
      assert a[m] == b[n];
      forall t ensures t in a[..m] <==> t in b[..n] {
        InitMember(a, t);
        InitMember(b, t);
      }
      AscendingUnique(a[..m], b[..n]);
      assert a == a[..m] + [a[m]] && b == b[..n] + [b[n]];
    }
  }

  lemma LastIsGreatest(a: seq<PointBudgetTile>, t: PointBudgetTile)
    requires SortedBy(TILE_KEY, a) && t in a
    ensures AtMost(t.id, a[|a| - 1].id) && (t.id == a[|a| - 1].id && UniqueTiles(a) ==> t == a[|a| - 1])
  {
    var i :| 0 <= i < |a| && a[i] == t;
    assert i < |a| - 1 ==> AtMost(TILE_KEY(a[i]), TILE_KEY(a[|a| - 1]));
  }

  lemma InitMember(a: seq<PointBudgetTile>, t: PointBudgetTile)
    requires a != [] && UniqueTiles(a)
    ensures t in a[..|a| - 1] <==> t in a && t != a[|a| - 1]
  {
    assert a == a[..|a| - 1] + [a[|a| - 1]];
  }

  lemma UniqueSorted(tiles: seq<PointBudgetTile>)
    requires UniqueTiles(tiles)
    ensures UniqueTiles(Sort(TILE_KEY, tiles))
  {
    hide Sort;
    assert UniqueBy(TILE_KEY, tiles);
    SortUnique(TILE_KEY, tiles);
    var sorted := Sort(TILE_KEY, tiles);
    assert forall i, j :: 0 <= i < j < |sorted| ==> TILE_KEY(sorted[i]) != TILE_KEY(sorted[j]);
  }

  lemma {:induction false} LeafTilesMember(nodes: seq<TilePlanNode>, t: PointBudgetTile)
    ensures t in LeafTiles(nodes) <==> exists k :: 0 <= k < |nodes| && IsLeafTile(nodes[k], t)
  {
    if nodes != [] {
      LeafTilesMember(nodes[..|nodes| - 1], t);
      if k :| 0 <= k < |nodes| && IsLeafTile(nodes[k], t) {
        assert k < |nodes| - 1 ==> nodes[..|nodes| - 1][k] == nodes[k];
      }
      if IsLeafTile(nodes[|nodes| - 1], t) {
        assert t in LeafTiles(nodes);
      }
    }
  }

  predicate IsLeafTile(n: TilePlanNode, t: PointBudgetTile)
  {
    && n.isLeaf && n.IsValid() && n.pointCount <= SIZE_MAX
    && t == PointBudgetTile(n.id, HorizontalBox(n.bounds), n.pointCount)
  }

  lemma {:induction false} LeafTilesUnique(nodes: seq<TilePlanNode>)
    requires UniqueUpTo(nodes, |nodes|)
    ensures UniqueTiles(LeafTiles(nodes))
  {
    if nodes != [] {
      var m := |nodes| - 1;
      LeafTilesUnique(nodes[..m]);
      var rest := LeafTiles(nodes[..m]);
      forall i | 0 <= i < |rest| ensures rest[i].id != nodes[m].id {
        LeafTilesMember(nodes[..m], rest[i]);
        var k :| 0 <= k < m && IsLeafTile(nodes[..m][k], rest[i]);
        assert nodes[k].id != nodes[m].id;
      }
    }
  }

  /** The node for a tile that no other tile is related to carries that tile unchanged. */
  lemma NodeOfTile(tiles: seq<PointBudgetTile>, k: nat)
    requires AllValid(tiles) && NoTileAbove(tiles) && UniqueTiles(tiles) && k < |tiles|
    ensures var n := NodeFor(tiles, tiles[k].id);
      && n.isLeaf && n.IsValid() && n.pointCount == tiles[k].pointCount && HorizontalBox(n.bounds) == tiles[k].box
      && n.children == []
  {
    hide Up, NodeFor, Sum, Below, OnPath, Above;
    var t := tiles[k];
    OnPathLevel(t.id, t);
    assert OnPath(t.id, tiles[k]);
    assert OnSomePath(t.id, tiles);
    ShapeLaws(tiles, t.id);
    assert NodeFor(tiles, t.id).children == [] by {
      HasChildren(tiles, t.id);
      AloneBelow(tiles, k);
    }
    NodeValidity(tiles, t.id);
    CountLaw(tiles, t.id);
    BoundsLaws(tiles, t.id);
    OnlyTileBelow(tiles, k);
    CountsNext([], t);
    assert [] + [t] == [t] && Sum(Counts([])) == 0 by { assert Counts([]) == []; SumEmpty(); }
  }

  lemma SumEmpty()
    ensures Sum([]) == 0
  {
  }

  /** The only tile on a path through a tile is that tile. */
  lemma AloneBelow(tiles: seq<PointBudgetTile>, k: nat)
    requires AllValid(tiles) && NoTileAbove(tiles) && UniqueTiles(tiles) && k < |tiles|
    ensures forall j :: 0 <= j < |tiles| ==> (OnPath(tiles[k].id, tiles[j]) <==> j == k)
  {
    forall j | 0 <= j < |tiles| ensures OnPath(tiles[k].id, tiles[j]) <==> j == k {
      if j != k {
        assert tiles[j].id != tiles[k].id by {
          if j < k { assert tiles[j].id != tiles[k].id; } else { assert tiles[k].id != tiles[j].id; }
        }
      }
    }
  }

  lemma OnlyTileBelow(tiles: seq<PointBudgetTile>, k: nat)
    requires AllValid(tiles) && NoTileAbove(tiles) && UniqueTiles(tiles) && k < |tiles|
    ensures Below(tiles, tiles[k].id) == [tiles[k]]
  {
    AloneBelow(tiles, k);
    hide OnPath, NoTileAbove;
    var t := tiles[k];
    assert tiles == tiles[..k] + [t] + tiles[k + 1..];
    var f := (u: PointBudgetTile) => OnPath(t.id, u);
    FilterConcat(f, tiles[..k] + [t], tiles[k + 1..]);
    FilterAppend(f, tiles[..k], t);
    FilterNone(f, tiles[..k]);
    FilterNone(f, tiles[k + 1..]);
  }

  /** The tile plan built from tiles gives a router the same tiles and the same root box. */
  lemma SameRouting(tiles: seq<PointBudgetTile>, nodes: seq<TilePlanNode>)
    requires AllValid(tiles) && NoTileAbove(tiles) && UniqueTiles(tiles) && Built(tiles, nodes)
    requires forall k :: 0 <= k < |tiles| ==> tiles[k].pointCount <= SIZE_MAX
    ensures RoutingOf(LeafTiles(nodes)) == RoutingOf(tiles)
  {
    hide Sort, HullOfTiles, NodeFor, NoTileAbove, LeafTiles, OnPath;
    var leaves := LeafTiles(nodes);
    var a, b := Sort(TILE_KEY, leaves), Sort(TILE_KEY, tiles);
    forall t ensures t in a <==> t in b {
      SortMember(TILE_KEY, leaves, t);
      SortMember(TILE_KEY, tiles, t);
      SameLeafTiles(tiles, nodes, t);
    }
    LeafTilesUnique(nodes);
    UniqueSorted(leaves);
    UniqueSorted(tiles);
    SortSorted(TILE_KEY, leaves);
    SortSorted(TILE_KEY, tiles);
    AscendingUnique(a, b);
  }

  lemma SameLeafTiles(tiles: seq<PointBudgetTile>, nodes: seq<TilePlanNode>, t: PointBudgetTile)
    requires AllValid(tiles) && NoTileAbove(tiles) && UniqueTiles(tiles) && Built(tiles, nodes)
    requires forall k :: 0 <= k < |tiles| ==> tiles[k].pointCount <= SIZE_MAX
    ensures t in LeafTiles(nodes) <==> t in tiles
  {
    hide Up, NodeFor, NoTileAbove, LeafTiles, OnPath;
    LeafTilesMember(nodes, t);
    if k :| 0 <= k < |nodes| && IsLeafTile(nodes[k], t) {
      assert OnSomePath(nodes[k].id, tiles);
      var p :| 0 <= p < |tiles| && OnPath(nodes[k].id, tiles[p]);
      OnPathLevel(nodes[k].id, tiles[p]);
      ShapeLaws(tiles, nodes[k].id);
      var i :| 0 <= i < |tiles| && tiles[i].id == nodes[k].id;
      NodeOfTile(tiles, i);
      assert t == tiles[i];
    }
    if k :| 0 <= k < |tiles| && tiles[k] == t {
      NodeOfTile(tiles, k);
      OnPathLevel(t.id, tiles[k]);
      assert OnSomePath(t.id, tiles);
      var i :| 0 <= i < |nodes| && nodes[i].id == t.id;
      assert IsLeafTile(nodes[i], t);
    }
  }

  // ----- Every plan the planner makes

  /** The tiles of every plan for a non-empty finite point set meet the conditions for building a tile plan,
      and the tile plan routes exactly as the tiles do. */
  lemma PlannedTilesBuild(s: Split, cfg: PointBudgetConfig, points: seq<Position>, nodes: seq<TilePlanNode>)
    requires cfg.IsValid() && points != [] && AllFinite(points) && |points| <= SIZE_MAX
    ensures var tiles := InMemoryOutcome(s, cfg, points).0.tiles;
      && AllValid(tiles) && NoTileAbove(tiles) && OneTop(tiles)
      && (Built(tiles, nodes) ==> RoutingOf(LeafTiles(nodes)) == RoutingOf(tiles))
  {
    hide Grow, Hull, Built, RoutingOf, Above, Top, LawfulTiles, LawfulCounters;
    var tiles := InMemoryOutcome(s, cfg, points).0.tiles;
    PlanTilesLawful(s, cfg, points);
    PlanCountersLawful(s, cfg, points);
    LawfulTilesBuild(cfg, tiles);
    forall k | 0 <= k < |tiles| ensures Top(tiles[k].id) == ROOT {
      PlannedBelowRoot(s, cfg, points, k);
    }
    forall k | 0 <= k < |tiles| ensures tiles[k].pointCount <= SIZE_MAX {
      CountersBound(InMemoryOutcome(s, cfg, points).0, |points|, k);
    }
    if Built(tiles, nodes) {
      SameRouting(tiles, nodes);
    }
  }

  lemma CountersBound(plan: PointBudgetPlan, total: nat, k: nat)
    requires LawfulCounters(plan, total) && k < |plan.tiles|
    ensures plan.tiles[k].pointCount <= total
  {
    SumAtLeast(Counts(plan.tiles), k);
  }

  lemma LawfulTilesBuild(cfg: PointBudgetConfig, tiles: seq<PointBudgetTile>)
    requires LawfulTiles(cfg, tiles)
    ensures AllValid(tiles) && NoTileAbove(tiles) && UniqueTiles(tiles)
  {
    forall i, j | 0 <= i < j < |tiles| ensures tiles[i].id != tiles[j].id {
      assert !Above(tiles[i].id, tiles[j].id);
    }
  }

  lemma PlannedBelowRoot(s: Split, cfg: PointBudgetConfig, points: seq<Position>, k: nat)
    requires cfg.IsValid() && points != [] && k < |PlanFor(s, cfg, points, Hull(points)).tiles|
    ensures var id := PlanFor(s, cfg, points, Hull(points)).tiles[k].id;
      id.level >= 0 && Top(id) == ROOT
  {
    hide Grow, Hull;
    var root := Place(ROOT, Hull(points));
    var cells := Cells(Grow(s, cfg, points, root));
    assert cells[k] in cells;
    CellLaws(s, cfg, points, root, cells[k]);
  }

  // ----- Order and parents of the nodes, in numbers

  /** Nodes come by level, and within a level by x, y and z. */
  lemma NodesInOrder(tiles: seq<PointBudgetTile>, nodes: seq<TilePlanNode>, i: nat, j: nat)
    requires Built(tiles, nodes) && i < j < |nodes|
    ensures var a, b := nodes[i].id, nodes[j].id;
      || a.level < b.level
      || (a.level == b.level && a.x < b.x)
      || (a.level == b.level && a.x == b.x && a.y < b.y)
      || (a.level == b.level && a.x == b.x && a.y == b.y && a.z < b.z)
  {
    hide NodeFor, OnSomePath;
    assert AtMost(NODE_KEY(nodes[i]), NODE_KEY(nodes[j]));
    assert nodes[i].id != nodes[j].id;
  }

  /** A node's parent is one level up, and has half of each coordinate, cut off toward zero. */
  lemma ParentInNumbers(tiles: seq<PointBudgetTile>, nodes: seq<TilePlanNode>, k: nat)
    requires Built(tiles, nodes) && k < |nodes| && AllValid(tiles)
    ensures var id, parent := nodes[k].id, nodes[k].parent;
      if id.level == 0 then parent == TileId(-1, 0, 0, 0)
      else parent.level == id.level - 1 && IsHalf(id.x, parent.x) && IsHalf(id.y, parent.y) && IsHalf(id.z, parent.z)
  {
    hide NodeFor, OnSomePath;
    assert OnSomePath(nodes[k].id, tiles) && nodes[k] == NodeFor(tiles, nodes[k].id);
    PathLevel(nodes[k].id, tiles);
    ShapeLaws(tiles, nodes[k].id);
  }

  predicate IsHalf(i: int, h: int)
  {
    if i >= 0 then 0 <= 2 * h <= i < 2 * h + 2 else 2 * h - 2 < i <= 2 * h <= 0
  }

  lemma PathLevel(id: TileId, tiles: seq<PointBudgetTile>)
    requires OnSomePath(id, tiles)
    ensures id.level >= 0
  {
  }
}
