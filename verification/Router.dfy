/** The router that sends a position to the plan's tile, rebuilding the root box from the tiles alone. */
module Router {
  import opened Seqs
  import opened TileIds
  import opened Quadtree
  import opened QuadtreeLaws
  import opened TilePlan

  const TILE_KEY: PointBudgetTile -> TileId := (t: PointBudgetTile) => t.id

  function Join(a: Box, b: Box): Box
  {
    Box(if b.minX < a.minX then b.minX else a.minX, if a.maxX < b.maxX then b.maxX else a.maxX,
        if b.minY < a.minY then b.minY else a.minY, if a.maxY < b.maxY then b.maxY else a.maxY)
  }

  /** The smallest box around the tiles' boxes. */
  function HullOfTiles(tiles: seq<PointBudgetTile>): Box
    requires tiles != []
  {
    if |tiles| == 1 then tiles[0].box else Join(HullOfTiles(tiles[..|tiles| - 1]), tiles[|tiles| - 1].box)
  }

  const NO_BOX := Box(0.0, 0.0, 0.0, 0.0)

  function Ids(tiles: seq<PointBudgetTile>): set<TileId>
  {
    set t | t in tiles :: t.id
  }

  /** Halving the box around `p` until a tile is met. */
  function RouteFrom(s: Split, ids: set<TileId>, p: Position, at: Place): TileId
    decreases MAX_DEPTH - at.id.level
  {
    if at.id in ids then at.id
    else if at.id.level >= MAX_DEPTH || at.box.minX == at.box.maxX || at.box.minY == at.box.maxY then NO_TILE
    else RouteFrom(s, ids, p, Step(s, at, p))
  }

  /** A router's tiles in ascending order, and the root box it rebuilt. */
  datatype Routing = Routing(tiles: seq<PointBudgetTile>, root: Box) {
    predicate IsValid()
    {
      tiles != [] && root.IsValid() && forall t :: t in tiles ==> t.IsValid()
    }
  }

  function RoutingOf(tiles: seq<PointBudgetTile>): Routing
  {
    var sorted := Sort(TILE_KEY, tiles);
    Routing(sorted, if sorted == [] then NO_BOX else HullOfTiles(sorted))
  }

  /** Where a router sends a position. */
  function Route(s: Split, r: Routing, p: Position): TileId
  {
    if !r.IsValid() || !p.finite || !r.root.Contains(p) then NO_TILE
    else RouteFrom(s, Ids(r.tiles), p, Place(ROOT, r.root))
  }

  function HorizontalBox(b: Bounds): Box
    requires b.Bounds?
  {
    Box(b.minimum.x, b.maximum.x, b.minimum.y, b.maximum.y)
  }

  /** The tiles that a router takes over from a tile plan: its valid leaves. */
  function LeafTiles(nodes: seq<TilePlanNode>): seq<PointBudgetTile>
  {
    if nodes == [] then []
    else
      var n := nodes[|nodes| - 1];
      LeafTiles(nodes[..|nodes| - 1]) +
      if n.isLeaf && n.IsValid() && n.pointCount <= SIZE_MAX
      then [PointBudgetTile(n.id, HorizontalBox(n.bounds), n.pointCount)] else []
  }

  method SortAndBound(planTiles: seq<PointBudgetTile>) returns (tiles: seq<PointBudgetTile>, root: Box)
    ensures Routing(tiles, root) == RoutingOf(planTiles) && SortedBy(TILE_KEY, tiles)
  {
    tiles, root := Sort(TILE_KEY, planTiles), NO_BOX;
    SortSorted(TILE_KEY, planTiles);
    if tiles != [] {
      root := tiles[0].box;
      var k := 0;
      while k < |tiles|
        invariant 0 <= k <= |tiles|
        invariant root == if k == 0 then tiles[0].box else HullOfTiles(tiles[..k])
      {
        assert tiles[..k + 1][..k] == tiles[..k];
        root := Join(root, tiles[k].box);
        k := k + 1;
      }
      assert tiles[..k] == tiles;
    }
  }

  /** The first tile that is not below `id` is the one with that identity, if there is any. */
  lemma LowerBoundFinds(tiles: seq<PointBudgetTile>, id: TileId, k: nat)
    requires SortedBy(TILE_KEY, tiles) && k <= |tiles|
    requires forall i :: 0 <= i < k ==> Less(tiles[i].id, id)
    requires forall i :: k <= i < |tiles| ==> !Less(tiles[i].id, id)
    ensures id in Ids(tiles) <==> k < |tiles| && tiles[k].id == id
  {
    if id in Ids(tiles) {
      var i :| 0 <= i < |tiles| && tiles[i].id == id;
      assert k <= i;
      assert k < i ==> AtMost(TILE_KEY(tiles[k]), TILE_KEY(tiles[i]));
    }
  }

  class PointBudgetTileRouter {
    const split: Split
    var tiles: seq<PointBudgetTile>
    var root: Box

    ghost function View(): Routing
      reads this
    {
      Routing(tiles, root)
    }

    ghost predicate Ordered()
      reads this
    {
      SortedBy(TILE_KEY, tiles)
    }

    constructor FromBudgetPlan(s: Split, plan: PointBudgetPlan)
      ensures split == s && View() == RoutingOf(plan.tiles) && Ordered()
    {
      split := s;
      var sorted, box := SortAndBound(plan.tiles);
      tiles, root := sorted, box;
    }

    constructor FromTilePlan(s: Split, plan: TilePlan)
      ensures split == s && View() == RoutingOf(LeafTiles(plan.nodes)) && Ordered()
    {
      split := s;
      var leaves := [];
      var k := 0;
      while k < |plan.nodes|
        invariant 0 <= k <= |plan.nodes| && leaves == LeafTiles(plan.nodes[..k])
      {
        var node := plan.nodes[k];
        if node.isLeaf && node.IsValid() && node.pointCount <= SIZE_MAX {
          leaves := leaves + [PointBudgetTile(node.id, HorizontalBox(node.bounds), node.pointCount)];
        }
        assert plan.nodes[..k + 1][..k] == plan.nodes[..k];
        k := k + 1;
      }
      assert plan.nodes[..k] == plan.nodes;
      var sorted, box := SortAndBound(leaves);
      tiles, root := sorted, box;
    }

    /** Binary search over the ordered tiles. */
    method FindTile(id: TileId) returns (found: bool)
      requires Ordered()
      ensures found <==> id in Ids(tiles)
    {
      var lo, hi := 0, |tiles|;
      while lo < hi
        invariant 0 <= lo <= hi <= |tiles|
        invariant forall i :: 0 <= i < lo ==> Less(tiles[i].id, id)
        invariant forall i :: hi <= i < |tiles| ==> !Less(tiles[i].id, id)
      {
        var mid := (lo + hi) / 2;
        if Less(tiles[mid].id, id) {
          assert forall i :: 0 <= i < mid ==> AtMost(TILE_KEY(tiles[i]), TILE_KEY(tiles[mid]));
          lo := mid + 1;
        } else {
          assert forall i :: mid < i < |tiles| ==> AtMost(TILE_KEY(tiles[mid]), TILE_KEY(tiles[i]));
          hi := mid;
        }
      }
      found := lo < |tiles| && tiles[lo].id == id;
      LowerBoundFinds(tiles, id, lo);
    }

    method GetTileId(p: Position) returns (id: TileId)
      requires Ordered()
      ensures id == Route(split, View(), p)
    {
      if tiles == [] || !root.IsValid() || !(forall t :: t in tiles ==> t.IsValid()) || !p.finite {
        return NO_TILE;
      }
      if p.x < root.minX || p.x > root.maxX || p.y < root.minY || p.y > root.maxY {
        return NO_TILE;
      }
      var box := root;
      id := ROOT;
      while true
        invariant 0 <= id.level <= MAX_DEPTH
        invariant RouteFrom(split, Ids(tiles), p, Place(id, box))
               == RouteFrom(split, Ids(tiles), p, Place(ROOT, root))
        decreases MAX_DEPTH - id.level
      {
        var found := FindTile(id);
        if found { return id; }
        if id.level >= MAX_DEPTH || box.minX == box.maxX || box.minY == box.maxY {
          return NO_TILE;
        }
        ghost var here := Place(id, box);
        var splitX, splitY := split(box.minX, box.maxX), split(box.minY, box.maxY);
        var xBit := if p.x >= splitX then 1 else 0;
        var yBit := if p.y >= splitY then 1 else 0;
        id := TileId(id.level + 1, id.x * 2 + xBit, id.y * 2 + yBit, 0);
        box := if xBit != 0 then box.(minX := splitX) else box.(maxX := splitX);
        box := if yBit != 0 then box.(minY := splitY) else box.(maxY := splitY);
        assert Place(id, box) == Step(split, here, p);
      }
    }
  }

  // ----- A planned point set is routed home

  /** The hull of some boxes nested in `outer` that touch all four of its sides. */
  lemma {:induction false} HullOfTilesBounds(tiles: seq<PointBudgetTile>, outer: Box)
    requires tiles != [] && forall t :: t in tiles ==> t.box.Inside(outer)
    ensures HullOfTiles(tiles).Inside(outer)
    ensures forall t :: t in tiles ==> t.box.Inside(HullOfTiles(tiles))
  {
    var m := |tiles| - 1;
    if m > 0 {
      assert forall t :: t in tiles ==> t in tiles[..m] || t == tiles[m];
      HullOfTilesBounds(tiles[..m], outer);
    }
  }

  /** The box rebuilt from the non-empty tiles is the planner's root box. */
  lemma RootBoxRebuilt(s: Split, cfg: PointBudgetConfig, points: seq<Position>)
    requires cfg.IsValid() && points != []
    ensures var r := RoutingOf(PlanFor(s, cfg, points, Hull(points)).tiles);
      r.tiles != [] && r.root == Hull(points)
  {
    hide Grow, Hull, Sort, HullOfTiles, Depth, Largest, Smallest;
    var root := Place(ROOT, Hull(points));
    var cells := Cells(Grow(s, cfg, points, root));
    var sorted := Sort(TILE_KEY, TilesOf(cells));
    var west, east, south, north := HullLaws(points);
    forall t | t in sorted ensures t.box.Inside(root.box) {
      SortMember(TILE_KEY, TilesOf(cells), t);
      var i :| 0 <= i < |cells| && t == TilesOf(cells)[i];
      CellBox(s, cfg, points, root, cells[i]);
    }
    var w := TileAround(s, cfg, points, west);
    var e := TileAround(s, cfg, points, east);
    var o := TileAround(s, cfg, points, south);
    var n := TileAround(s, cfg, points, north);
    HullOfTilesBounds(sorted, root.box);
  }

  lemma TileAround(s: Split, cfg: PointBudgetConfig, points: seq<Position>, p: Position) returns (t: PointBudgetTile)
    requires p in points
    ensures t in Sort(TILE_KEY, PlanFor(s, cfg, points, Hull(points)).tiles) && t.box.Contains(p)
  {
    hide Grow, Hull, Sort, Depth, Largest, Smallest;
    var root := Place(ROOT, Hull(points));
    var cells := Cells(Grow(s, cfg, points, root));
    var _, _, _, _ := HullLaws(points);
    var cell := EveryPointCounted(s, cfg, points, root, p);
    CellBox(s, cfg, points, root, cell);
    var i :| 0 <= i < |cells| && cells[i] == cell;
    t := TilesOf(cells)[i];
    SortMember(TILE_KEY, TilesOf(cells), t);
  }

  /** No tile is met above the one a position passes through. */
  lemma OnlyTileOnPath(ids: set<TileId>, home: TileId, id: TileId)
    requires forall a, b :: a in ids && b in ids && a != b ==> !Above(a, b)
    requires home in ids && Above(id, home)
    ensures id in ids <==> id == home
  {
  }

  /** Descending from any node of the tree, a counted point is routed to the tile that counts it. */
  lemma {:induction false} RouteFromFindsCell(s: Split, cfg: PointBudgetConfig, points: seq<Position>, at: Place,
                                              cell: Cell, p: Position, ids: set<TileId>)
    requires cfg.IsValid() && Planar(at.id)
    requires cell in Cells(Grow(s, cfg, points, at)) && p in cell.points
    requires cell.at.id in ids && forall a, b :: a in ids && b in ids && a != b ==> !Above(a, b)
    ensures RouteFrom(s, ids, p, at) == cell.at.id
    decreases cfg.maxDepth - at.id.level
  {
    hide Above, Quadrant, Part;
    CellLaws(s, cfg, points, at, cell);
    OnlyTileOnPath(ids, cell.at.id, at.id);
    if Splits(s, cfg, points, at) {
      var c := CellInKid(s, cfg, points, at, cell);
      PointsOfKid(s, cfg, points, at, c, cell, p);
      ParentOfChild(at.id, c);
      RouteFromFindsCell(s, cfg, Part(s, at.box, points, c), Child(s, at, c), cell, p, ids);
    }
  }

  /** A point counted below child `c` lies in quadrant `c`. */
  lemma PointsOfKid(s: Split, cfg: PointBudgetConfig, points: seq<Position>, at: Place, c: nat, cell: Cell, p: Position)
    requires Planar(at.id) && c < 4
    requires cell in Cells(Grow(s, cfg, Part(s, at.box, points, c), Child(s, at, c))) && p in cell.points
    ensures p in points && Quadrant(s, at.box, p) == c
  {
    hide Grow, Descend, Quadrant, Filter;
    ParentOfChild(at.id, c);
    var part := Part(s, at.box, points, c);
    CellPoints(s, cfg, part, Child(s, at, c), cell);
    FilterMember((x: Position) => Reaches(s, Child(s, at, c), x, cell.at), part, p);
    FilterMember((x: Position) => Quadrant(s, at.box, x) == c, points, p);
  }

  /** The router built from a plan sends every planned point to the tile that counts it. */
  lemma PointsRoutedHome(s: Split, cfg: PointBudgetConfig, points: seq<Position>, cell: Cell, p: Position)
    requires cfg.IsValid() && AllFinite(points) && p in points
    requires cell in Cells(Grow(s, cfg, points, Place(ROOT, Hull(points)))) && p in cell.points
    ensures Route(s, RoutingOf(PlanFor(s, cfg, points, Hull(points)).tiles), p) == cell.at.id
  {
    hide Grow, Sort, HullOfTiles, Hull, Depth, Largest, Smallest, RouteFrom, Above;
    var root := Place(ROOT, Hull(points));
    var cells := Cells(Grow(s, cfg, points, root));
    var r := RoutingOf(TilesOf(cells));
    var _, _, _, _ := HullLaws(points);
    RootBoxRebuilt(s, cfg, points);
    forall t | t in r.tiles ensures t.IsValid() && exists i :: 0 <= i < |cells| && t == TileOf(cells[i]) {
      SortMember(TILE_KEY, TilesOf(cells), t);
      var i :| 0 <= i < |cells| && t == TilesOf(cells)[i];
      CellLaws(s, cfg, points, root, cells[i]);
      CellBox(s, cfg, points, root, cells[i]);
    }
    GrowPrefixFree(s, cfg, points, root);
    var k :| 0 <= k < |cells| && cells[k] == cell;
    SortMember(TILE_KEY, TilesOf(cells), TilesOf(cells)[k]);
    RouteFromFindsCell(s, cfg, points, root, cell, p, Ids(r.tiles));
  }

  /** Routing the planned points reproduces every tile's points, in order, and so its count. */
  lemma RoutedPointsAreCounted(s: Split, cfg: PointBudgetConfig, points: seq<Position>, i: nat)
    requires cfg.IsValid() && points != [] && AllFinite(points)
    requires i < |PlanFor(s, cfg, points, Hull(points)).tiles|
    ensures var plan := PlanFor(s, cfg, points, Hull(points));
      var cells := Cells(Grow(s, cfg, points, Place(ROOT, Hull(points))));
      && plan.tiles[i] == TileOf(cells[i])
      && RoutedTo(s, plan.tiles, points, plan.tiles[i].id) == cells[i].points
      && |RoutedTo(s, plan.tiles, points, plan.tiles[i].id)| == plan.tiles[i].pointCount
  {
    hide Grow, Sort, RoutingOf, Hull, Depth, Largest, Smallest, Route, Above, Descend, Filter;
    var root := Place(ROOT, Hull(points));
    var cells := Cells(Grow(s, cfg, points, root));
    var r := RoutingOf(TilesOf(cells));
    var cell := cells[i];
    CellPoints(s, cfg, points, root, cell);
    forall p | p in points ensures (Route(s, r, p) == cell.at.id) == Reaches(s, root, p, cell.at) {
      FilterMember((x: Position) => Reaches(s, root, x, cell.at), points, p);
      var other := EveryPointCounted(s, cfg, points, root, p);
      PointsRoutedHome(s, cfg, points, other, p);
      if other.at.id == cell.at.id {
        SameIdSameCell(s, cfg, points, root, cell, other);
      } else if p in cell.points {
        PointsRoutedHome(s, cfg, points, cell, p);
      }
    }
    FilterAgree((p: Position) => Route(s, r, p) == cell.at.id, (p: Position) => Reaches(s, root, p, cell.at), points);
  }

  /** The points that the router built from `tiles` sends to `id`. */
  function RoutedTo(s: Split, tiles: seq<PointBudgetTile>, points: seq<Position>, id: TileId): seq<Position>
  {
    Filter((p: Position) => Route(s, RoutingOf(tiles), p) == id, points)
  }

  lemma SameIdSameCell(s: Split, cfg: PointBudgetConfig, points: seq<Position>, at: Place, a: Cell, b: Cell)
    requires Planar(at.id) && a in Cells(Grow(s, cfg, points, at)) && b in Cells(Grow(s, cfg, points, at))
    requires a.at.id == b.at.id
    ensures a == b
  {
    var cells := Cells(Grow(s, cfg, points, at));
    hide Grow;
    GrowPrefixFree(s, cfg, points, at);
    var i :| 0 <= i < |cells| && cells[i] == a;
    var j :| 0 <= j < |cells| && cells[j] == b;
    assert Above(a.at.id, b.at.id);
  }

  /** Whatever is routed, the answer is a tile of the router that the position halves its way to, or no tile. */
  lemma {:induction false} RouteFromSound(s: Split, ids: set<TileId>, p: Position, at: Place)
    requires at.id.level >= 0
    ensures var id := RouteFrom(s, ids, p, at);
      id == NO_TILE || (id in ids && id.level >= at.id.level && Descend(s, at, p, id.level - at.id.level).id == id)
    decreases MAX_DEPTH - at.id.level
  {
    if !(at.id in ids) && at.id.level < MAX_DEPTH {
      RouteFromSound(s, ids, p, Step(s, at, p));
    }
  }
}
