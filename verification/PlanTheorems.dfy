/** Main results about the adaptive point-budget plans. */
module PlanTheorems {
  import opened Seqs
  import opened TileIds
  import opened Quadtree
  import opened QuadtreeLaws
  import opened InMemoryPlanner
  import opened StreamingPlanner

  /** Both planners come to the same plan and verdict, however the passes are cut into chunks,
      exactly when the points are finite or the configuration is refused. For a point that is not
      finite, both refuse, but only the in-memory planner leaves the point count behind. */
  lemma PlannersAgree(s: Split, cfg: PointBudgetConfig, points: seq<Position>, first: Pass, second: Pass)
    requires first.Opened? && Clean(first.events) && Delivered(first.events) == points
    requires second.Opened? && Clean(second.events) && Delivered(second.events) == points
    requires |points| <= SIZE_MAX
    ensures StreamOutcome(s, cfg, first, second) == InMemoryOutcome(s, cfg, points)
        <==> !cfg.IsValid() || AllFinite(points)
    ensures StreamOutcome(s, cfg, first, second).1 == InMemoryOutcome(s, cfg, points).1
  {
    if cfg.IsValid() && !AllFinite(points) {
      assert InMemoryOutcome(s, cfg, points).0.pointCount == |points| > 0;
    }
  }

  /** Tiles are valid and within the depth limit, hold the minimum unless they are the root, and none
      lies above another. */
  ghost predicate LawfulTiles(cfg: PointBudgetConfig, tiles: seq<PointBudgetTile>)
  {
    && (forall i :: 0 <= i < |tiles| ==> LawfulTile(cfg, tiles[i]))
    && (forall i, j :: 0 <= i < |tiles| && 0 <= j < |tiles| && i != j ==> !Above(tiles[i].id, tiles[j].id))
  }

  predicate LawfulTile(cfg: PointBudgetConfig, tile: PointBudgetTile)
  {
    && tile.IsValid() && Planar(tile.id) && tile.id.level <= cfg.maxDepth
    && (tile.id != ROOT ==> tile.pointCount >= cfg.minPointsPerTile)
  }

  /** The counters and extremes describe the tiles, and the counts share out `total` points. */
  ghost predicate LawfulCounters(plan: PointBudgetPlan, total: nat)
  {
    var tiles := plan.tiles;
    && tiles != []
    && plan.tileCount == |tiles| && plan.pointCount == total && Sum(Counts(tiles)) == total
    && plan.averagePointsPerTile == total as real / |tiles| as real
    && (forall i :: 0 <= i < |tiles| ==> tiles[i].id.level <= plan.depth)
    && (exists i :: 0 <= i < |tiles| && tiles[i].id.level == plan.depth)
    && plan.splitCount + 1 <= plan.tileCount <= 3 * plan.splitCount + 1
    && (forall i :: 0 <= i < |tiles| ==> plan.minimumPointsPerTile <= tiles[i].pointCount <= plan.maximumPointsPerTile)
    && (exists i :: 0 <= i < |tiles| && tiles[i].pointCount == plan.minimumPointsPerTile)
    && (exists i :: 0 <= i < |tiles| && tiles[i].pointCount == plan.maximumPointsPerTile)
  }

  lemma {:induction false} ExtremesOf(tiles: seq<PointBudgetTile>) returns (least: nat, most: nat)
    requires tiles != [] && forall i :: 0 <= i < |tiles| ==> tiles[i].pointCount > 0
    ensures least < |tiles| && tiles[least].pointCount == Smallest(tiles) > 0
    ensures most < |tiles| && tiles[most].pointCount == Largest(tiles)
    ensures forall i :: 0 <= i < |tiles| ==> Smallest(tiles) <= tiles[i].pointCount <= Largest(tiles)
  {
    var m := |tiles| - 1;
    if m == 0 {
      least, most := 0, 0;
      assert tiles[..0] == [];
    } else {
      least, most := ExtremesOf(tiles[..m]);
      if tiles[m].pointCount < Smallest(tiles[..m]) { least := m; }
      if Largest(tiles[..m]) < tiles[m].pointCount { most := m; }
    }
  }

  lemma PlanTilesLawful(s: Split, cfg: PointBudgetConfig, points: seq<Position>)
    requires cfg.IsValid() && points != []
    ensures LawfulTiles(cfg, PlanFor(s, cfg, points, Hull(points)).tiles)
  {
    hide Grow, Above, Hull, Depth;
    var root := Place(ROOT, Hull(points));
    var cells := Cells(Grow(s, cfg, points, root));
    var tiles := TilesOf(cells);
    forall i | 0 <= i < |tiles| ensures LawfulTile(cfg, tiles[i]) {
      var _, _, _, _ := HullLaws(points);
      assert cells[i] in cells;
      CellLaws(s, cfg, points, root, cells[i]);
      CellBox(s, cfg, points, root, cells[i]);
      if tiles[i].id != ROOT {
        CellMinimum(s, cfg, points, root, cells[i]);
      }
    }
    GrowPrefixFree(s, cfg, points, root);
  }

  /** The points that halve their way from the root box to the tile. */
  function CountedBy(s: Split, box: Box, points: seq<Position>, tile: PointBudgetTile): seq<Position>
  {
    Arrivals(s, Place(ROOT, box), points, Place(tile.id, tile.box))
  }

  predicate AllIn(box: Box, points: seq<Position>)
  {
    forall p :: p in points ==> p.finite && box.Contains(p)
  }

  /** Every tile counts exactly the points that halve their way to it. */
  ghost predicate TilesCount(s: Split, box: Box, points: seq<Position>, tiles: seq<PointBudgetTile>)
  {
    forall i :: 0 <= i < |tiles| ==> tiles[i].pointCount == |CountedBy(s, box, points, tiles[i])|
  }

  /** Every tile's box holds the points that it counts. */
  ghost predicate TilesHold(s: Split, box: Box, points: seq<Position>, tiles: seq<PointBudgetTile>)
  {
    forall i :: 0 <= i < |tiles| ==> AllIn(tiles[i].box, CountedBy(s, box, points, tiles[i]))
  }

  /** Whatever box a plan is grown from, its tiles count the points that reach them, and they hold these points
      exactly when the box holds all points. */
  lemma PlanTilesHold(s: Split, cfg: PointBudgetConfig, points: seq<Position>, box: Box)
    requires box.IsValid()
    ensures var tiles := PlanFor(s, cfg, points, box).tiles;
      TilesCount(s, box, points, tiles) && (TilesHold(s, box, points, tiles) <==> AllIn(box, points))
  {
    hide Grow, Arrivals, Depth, Largest, Smallest;
    var root := Place(ROOT, box);
    var cells := Cells(Grow(s, cfg, points, root));
    var tiles := TilesOf(cells);
    forall i | 0 <= i < |tiles|
      ensures CountedBy(s, box, points, tiles[i]) == cells[i].points
      ensures AllIn(box, points) ==> AllIn(tiles[i].box, cells[i].points)
    {
      assert cells[i] in cells;
      CellPoints(s, cfg, points, root, cells[i]);
      CellBox(s, cfg, points, root, cells[i]);
    }
    if TilesHold(s, box, points, tiles) {
      forall p | p in points ensures p.finite && box.Contains(p) {
        var cell := EveryPointCounted(s, cfg, points, root, p);
        var i :| 0 <= i < |cells| && cells[i] == cell;
        assert AllIn(tiles[i].box, cells[i].points);
        CellBox(s, cfg, points, root, cell);
      }
    }
  }

  lemma PlanCountersLawful(s: Split, cfg: PointBudgetConfig, points: seq<Position>)
    requires cfg.IsValid() && points != []
    ensures LawfulCounters(PlanFor(s, cfg, points, Hull(points)), |points|)
  {
    hide Grow, Hull, Depth, Sum, Largest, Smallest, Average, Cells, SplitCount, Counts, CellCounts;
    var root := Place(ROOT, Hull(points));
    var cells := Cells(Grow(s, cfg, points, root));
    GrowConserves(s, cfg, points, root);
    TileCountBounds(s, cfg, points, root);
    forall cell | cell in cells ensures cell.points != [] {
      CellLaws(s, cfg, points, root, cell);
    }
    CountsAndExtremes(cells);
    PlanDepthLawful(s, cfg, points);
    AverageIsQuotient(|points|, |cells|);
  }

  lemma CountsAndExtremes(cells: seq<Cell>)
    requires cells != [] && forall cell :: cell in cells ==> cell.points != []
    ensures var tiles := TilesOf(cells);
      && Counts(tiles) == CellCounts(cells)
      && (forall i :: 0 <= i < |tiles| ==> Smallest(tiles) <= tiles[i].pointCount <= Largest(tiles))
      && (exists i :: 0 <= i < |tiles| && tiles[i].pointCount == Smallest(tiles))
      && (exists i :: 0 <= i < |tiles| && tiles[i].pointCount == Largest(tiles))
  {
    hide Smallest, Largest;
    var tiles := TilesOf(cells);
    forall i | 0 <= i < |tiles| ensures tiles[i].pointCount > 0 {
      assert cells[i] in cells;
    }
    var least, most := ExtremesOf(tiles);
  }

  lemma AverageIsQuotient(total: nat, count: nat)
    requires count > 0
    ensures Average(total, count) == total as real / count as real
  {
  }

  lemma PlanDepthLawful(s: Split, cfg: PointBudgetConfig, points: seq<Position>)
    requires cfg.IsValid() && points != []
    ensures var plan := PlanFor(s, cfg, points, Hull(points));
      && (forall i :: 0 <= i < |plan.tiles| ==> plan.tiles[i].id.level <= plan.depth)
      && (exists i :: 0 <= i < |plan.tiles| && plan.tiles[i].id.level == plan.depth)
  {
    hide Grow, Hull, Depth, Largest, Smallest, Average, Above;
    var root := Place(ROOT, Hull(points));
    var cells := Cells(Grow(s, cfg, points, root));
    GrownDepth(s, cfg, points, root, 0);
    TileCountBounds(s, cfg, points, root);
    assert forall i :: 0 <= i < |cells| ==> cells[i] in cells;
    CellLaws(s, cfg, points, root, cells[0]);
    var depth := Depth(Grow(s, cfg, points, root), 0);
    if depth == 0 {
      assert cells[0].at.id.level == depth;
    } else {
      var cell :| cell in cells && cell.at.id.level == depth;
      var k :| 0 <= k < |cells| && cells[k] == cell;
    }
  }

  /** Every plan of a non-empty finite point set has lawful tiles and counters, its tiles count and hold exactly the
      points that halve their way to them, and its verdict says exactly whether every tile is within the budget. */
  lemma PlanLaws(s: Split, cfg: PointBudgetConfig, points: seq<Position>)
    requires cfg.IsValid() && points != [] && AllFinite(points)
    ensures var (plan, satisfied) := InMemoryOutcome(s, cfg, points);
      && LawfulTiles(cfg, plan.tiles) && LawfulCounters(plan, |points|)
      && TilesCount(s, Hull(points), points, plan.tiles) && TilesHold(s, Hull(points), points, plan.tiles)
      && (satisfied <==> forall t :: t in plan.tiles ==> t.pointCount <= cfg.maxPointsPerTile)
  {
    PlanTilesLawful(s, cfg, points);
    PlanCountersLawful(s, cfg, points);
    var _, _, _, _ := HullLaws(points);
    PlanTilesHold(s, cfg, points, Hull(points));
    hide LawfulTiles, LawfulCounters, Grow, Hull, TilesCount, TilesHold;
  }

  /** Nothing is planned exactly when there are no points, or one is not finite, or the configuration has no budget, a
      minimum above it or a depth outside 0 to 31; and only points are missing without being refused. */
  lemma PlannedExactly(s: Split, cfg: PointBudgetConfig, points: seq<Position>)
    ensures var refused := cfg.maxPointsPerTile == 0 || cfg.minPointsPerTile > cfg.maxPointsPerTile
                           || cfg.maxDepth < 0 || cfg.maxDepth > 31 || exists p :: p in points && !p.finite;
      && (InMemoryOutcome(s, cfg, points).0.tiles == [] <==> refused || points == [])
      && (points == [] ==> (InMemoryOutcome(s, cfg, points).1 <==> !refused))
      && (refused ==> !InMemoryOutcome(s, cfg, points).1)
  {
    hide PlanFor, Hull;
    if cfg.IsValid() && points != [] {
      PlanCountersLawful(s, cfg, points);
    }
  }

  /** The planner compares the passes by their point counts alone, and refuses the second exactly when these differ.
      The tiles of the plan count the points of the second pass; they hold them exactly when the box around the points of
      the first pass does. */
  lemma PassesCompared(s: Split, cfg: PointBudgetConfig, first: Pass, second: Pass)
    requires cfg.IsValid() && Usable(first) && Usable(second)
    requires Delivered(first.events) != [] && AllFinite(Delivered(first.events))
    ensures var planned, counted := Delivered(first.events), Delivered(second.events);
      var outcome := StreamOutcome(s, cfg, first, second);
      && (outcome == (EMPTY_PLAN, false) <==> |counted| != |planned|)
      && (|counted| == |planned| ==>
            && TilesCount(s, Hull(planned), counted, outcome.0.tiles)
            && (TilesHold(s, Hull(planned), counted, outcome.0.tiles) <==> AllIn(Hull(planned), counted)))
  {
    hide Delivered, Hull, Grow, TilesCount, TilesHold, AllIn;
    var planned, counted := Delivered(first.events), Delivered(second.events);
    var _, _, _, _ := HullLaws(planned);
    PlanTilesHold(s, cfg, counted, Hull(planned));
    assert PlanFor(s, cfg, counted, Hull(planned)).pointCount == |counted|;
  }

  /** A second pass with another point goes unnoticed, and the tile does not hold the point it counts. */
  lemma ChangedPassGoesUnnoticed(s: Split)
    ensures var cfg := PointBudgetConfig(1, 0, 0);
      var near, far := Position(0.0, 0.0, true), Position(5.0, 5.0, true);
      var (plan, satisfied) := StreamOutcome(s, cfg, Opened([Chunk([near])]), Opened([Chunk([far])]));
      satisfied && plan.tiles == [PointBudgetTile(ROOT, Box(0.0, 0.0, 0.0, 0.0), 1)]
      && !plan.tiles[0].box.Contains(far)
  {
    var cfg := PointBudgetConfig(1, 0, 0);
    var near, far := Position(0.0, 0.0, true), Position(5.0, 5.0, true);
    var box := Box(0.0, 0.0, 0.0, 0.0);
    forall p: Position ensures Delivered([Chunk([p])]) == [p] {
      assert [Chunk([p])][..0] == [];
      assert Delivered([Chunk([p])]) == [] + [p];
    }
    assert Hull([near]) == box;
    var q := Grow(s, cfg, [far], Place(ROOT, box));
    assert q == Leaf(Cell(Place(ROOT, box), [far]));
    assert Tiles(q) == [PointBudgetTile(ROOT, box, 1)];
  }
}
