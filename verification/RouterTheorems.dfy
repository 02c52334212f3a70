/** Where a plan's router sends a position, said in coordinates. */
module RouterTheorems {
  import opened TileIds
  import opened Quadtree
  import opened PlanGeometry
  import opened Router
  import PlanTheorems

  /** The identities are those of the places that become tiles. */
  ghost predicate AreTiles(s: Split, cfg: PointBudgetConfig, root: Box, points: seq<Position>, ids: set<TileId>)
    requires root.IsValid()
  {
    forall id :: id in ids <==> BecomesTile(s, cfg, root, points, id)
  }

  /** From any place above the tile that a position lies in, the router comes to that tile. */
  lemma {:induction false} RouteComesToTile(s: Split, cfg: PointBudgetConfig, root: Box, points: seq<Position>,
                                            ids: set<TileId>, p: Position, tile: TileId, n: nat)
    requires cfg.IsValid() && root.IsValid() && root.Contains(p) && AreTiles(s, cfg, root, points, ids)
    requires BecomesTile(s, cfg, root, points, tile) && Planar(tile) && LiesIn(s, root, tile, p) && n <= tile.level
    ensures RouteFrom(s, ids, p, Descend(s, Place(ROOT, root), p, n)) == tile
    decreases tile.level - n
  {
    hide Divides, BoxOf, LiesIn, Ancestor, Quadrant, ChildBox, Descend;
    var at := Descend(s, Place(ROOT, root), p, n);
    BecomesInGrid(s, cfg, root, points, tile);
    LyingReached(s, root, p, tile);
    if n < tile.level {
      DescentPasses(s, root, p, tile.level, n);
      DividesMeans(s, cfg, root, points, at.id);
      if at.id in ids {
        OnePlaceOfPoint(s, cfg, root, points, p, at.id, tile);
      }
      DescendLast(s, Place(ROOT, root), p, n);
      RouteComesToTile(s, cfg, root, points, ids, p, tile, n + 1);
    }
  }

  lemma DividesMeans(s: Split, cfg: PointBudgetConfig, root: Box, points: seq<Position>, id: TileId)
    requires root.IsValid() && Planar(id) && Divides(s, cfg, root, points, id)
    ensures var b := BoxOf(s, root, id); id.level < cfg.maxDepth && b.minX != b.maxX && b.minY != b.maxY
  {
    hide BoxOf;
  }

  lemma PlanTileIds(s: Split, cfg: PointBudgetConfig, points: seq<Position>)
    requires cfg.IsValid() && points != [] && AllFinite(points)
    ensures Hull(points).IsValid()
    ensures var r := RoutingOf(PlanFor(s, cfg, points, Hull(points)).tiles);
      r.IsValid() && r.root == Hull(points) && AreTiles(s, cfg, Hull(points), points, Ids(r.tiles))
  {
    hide PlanFor, Hull, BecomesTile, Sort, HullOfTiles, InPlace;
    var tiles := PlanFor(s, cfg, points, Hull(points)).tiles;
    var r := RoutingOf(tiles);
    PlanDetermined(s, cfg, points);
    PlanTheorems.PlanTilesLawful(s, cfg, points);
    RootBoxRebuilt(s, cfg, points);
    forall t ensures t in r.tiles <==> t in tiles {
      SortMember(TILE_KEY, tiles, t);
    }
    forall t | t in r.tiles ensures t.IsValid() {
      var i :| 0 <= i < |tiles| && tiles[i] == t;
      assert PlanTheorems.LawfulTile(cfg, tiles[i]);
    }
  }

  /** Every position, planned or not, is sent to the tile that it lies in. Positions outside the planner's root box, such
      that are not finite, and such that lie in no tile, are sent nowhere. */
  lemma RoutedWhereItLies(s: Split, cfg: PointBudgetConfig, points: seq<Position>, p: Position)
    requires cfg.IsValid() && points != [] && AllFinite(points)
    ensures Hull(points).IsValid()
    ensures var id := Route(s, RoutingOf(PlanFor(s, cfg, points, Hull(points)).tiles), p);
      && (forall tile :: BecomesTile(s, cfg, Hull(points), points, tile) && Planar(tile) ==>
            (id == tile <==> p.finite && Hull(points).Contains(p) && LiesIn(s, Hull(points), tile, p)))
      && (id == NO_TILE || BecomesTile(s, cfg, Hull(points), points, id))
  {
    hide PlanFor, Hull, BecomesTile, LiesIn, RoutingOf, RouteFrom, Descend;
    var root := Hull(points);
    var r := RoutingOf(PlanFor(s, cfg, points, root).tiles);
    PlanTileIds(s, cfg, points);
    if p.finite && root.Contains(p) {
      var id := Route(s, r, p);
      RouteFromSound(s, Ids(r.tiles), p, Place(ROOT, root));
      if id != NO_TILE {
        DescentLies(s, root, p, id.level);
      }
      StartOfDescent(s, root, p);
      forall tile | BecomesTile(s, cfg, root, points, tile) && Planar(tile) && LiesIn(s, root, tile, p) ensures id == tile {
        RouteComesToTile(s, cfg, root, points, Ids(r.tiles), p, tile, 0);
      }
    }
  }

  // ----- Any router

  predicate Unusable(t: PointBudgetTile)
  {
    t.id.level < 0 || t.box.minX > t.box.maxX || t.box.minY > t.box.maxY || t.pointCount == 0
  }

  /** The box around the tiles: none reaches out of it, and each of its sides is a side of some tile. */
  ghost predicate IsAround(b: Box, tiles: seq<PointBudgetTile>)
  {
    && (forall t :: t in tiles ==>
          b.minX <= t.box.minX && t.box.maxX <= b.maxX && b.minY <= t.box.minY && t.box.maxY <= b.maxY)
    && (exists t :: t in tiles && t.box.minX == b.minX) && (exists t :: t in tiles && t.box.maxX == b.maxX)
    && (exists t :: t in tiles && t.box.minY == b.minY) && (exists t :: t in tiles && t.box.maxY == b.maxY)
  }

  lemma {:induction false} HullIsAround(tiles: seq<PointBudgetTile>)
    requires tiles != []
    ensures IsAround(HullOfTiles(tiles), tiles)
  {
    var m := |tiles| - 1;
    assert tiles[m] in tiles;
    if m > 0 {
      HullIsAround(tiles[..m]);
      assert forall t :: t in tiles <==> t in tiles[..m] || t == tiles[m];
    }
  }

  lemma IsAroundOnce(a: Box, b: Box, tiles: seq<PointBudgetTile>)
    requires IsAround(a, tiles) && IsAround(b, tiles)
    ensures a == b
  {
  }

  /** A router without tiles, or with a tile that is not usable, sends nothing anywhere; one with usable tiles sends a finite
      position within the box around them down from that box, and no other. */
  lemma RoutedExactly(s: Split, tiles: seq<PointBudgetTile>, p: Position, root: Box)
    requires tiles == [] || IsAround(root, tiles)
    ensures Route(s, RoutingOf(tiles), p) ==
      if tiles == [] || (exists t :: t in tiles && Unusable(t))
         || !p.finite || p.x < root.minX || p.x > root.maxX || p.y < root.minY || p.y > root.maxY
      then NO_TILE
      else RouteFrom(s, set t | t in tiles :: t.id, p, Place(ROOT, root))
  {
    hide Sort, HullOfTiles, RouteFrom, IsAround;
    var sorted := Sort(TILE_KEY, tiles);
    forall t ensures t in sorted <==> t in tiles {
      SortMember(TILE_KEY, tiles, t);
    }
    assert Ids(sorted) == set t | t in tiles :: t.id;
    if tiles != [] {
      assert tiles[0] in sorted;
      HullIsAround(sorted);
      SameAround(HullOfTiles(sorted), sorted, tiles);
      IsAroundOnce(HullOfTiles(sorted), root, tiles);
      UsableTiles(tiles, root);
    }
  }

  lemma SameAround(b: Box, a: seq<PointBudgetTile>, tiles: seq<PointBudgetTile>)
    requires IsAround(b, a) && forall t :: t in a <==> t in tiles
    ensures IsAround(b, tiles)
  {
  }

  lemma UsableTiles(tiles: seq<PointBudgetTile>, root: Box)
    requires IsAround(root, tiles)
    ensures forall t :: t in tiles ==> (t.IsValid() <==> !Unusable(t))
    ensures (forall t :: t in tiles ==> t.IsValid()) ==> root.IsValid()
  {
  }

  lemma StartOfDescent(s: Split, root: Box, p: Position)
    ensures Descend(s, Place(ROOT, root), p, 0) == Place(ROOT, root)
  {
  }
}
