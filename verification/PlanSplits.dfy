/** The places that a plan splits: those above its tiles, and as many as it counts. */
module PlanSplits {
  import opened TileIds
  import opened Quadtree
  import opened QuadtreeLaws
  import opened InMemoryPlanner
  import opened PlanGeometry

  ghost function SplitIds(q: Quad): set<TileId>
  {
    if q.Node? then {q.at.id} + SplitIds(q.k0) + SplitIds(q.k1) + SplitIds(q.k2) + SplitIds(q.k3) else {}
  }

  ghost predicate OverCell(cells: seq<Cell>, id: TileId)
  {
    exists cell :: cell in cells && Above(id, cell.at.id) && id != cell.at.id
  }

  lemma KidSplits(q: Quad, id: TileId)
    requires q.Node?
    ensures id in SplitIds(q) <==> id == q.at.id || exists c :: 0 <= c < 4 && id in SplitIds(Kid(q, c))
  {
    assert Kid(q, 0) == q.k0 && Kid(q, 1) == q.k1 && Kid(q, 2) == q.k2 && Kid(q, 3) == q.k3;
  }

  lemma KidOfGrown(s: Split, cfg: PointBudgetConfig, points: seq<Position>, at: Place, c: nat)
    requires c < 4 && Grow(s, cfg, points, at).Node?
    ensures Kid(Grow(s, cfg, points, at), c) == GrownKid(s, cfg, points, at, c)
    ensures Grow(s, cfg, points, at).at == at && points != [] && Splits(s, cfg, points, at)
  {
  }

  /** A node is split exactly when it lies above a tile. */
  lemma {:induction false} SplitOverCell(s: Split, cfg: PointBudgetConfig, points: seq<Position>, at: Place, id: TileId)
    requires Planar(at.id)
    ensures var q := Grow(s, cfg, points, at);
      id in SplitIds(q) <==> at.id.level <= id.level && OverCell(Cells(q), id)
    decreases cfg.maxDepth - at.id.level
  {
    var q := Grow(s, cfg, points, at);
    if q.Node? {
      hide Grow, Cells, SplitIds, Splits, Part, Planar;
      KidSplits(q, id);
      forall c: nat | c < 4
        ensures Kid(q, c) == GrownKid(s, cfg, points, at, c)
        ensures id in SplitIds(Kid(q, c)) <==> at.id.level + 1 <= id.level && OverCell(Cells(Kid(q, c)), id)
      {
        KidOfGrown(s, cfg, points, at, c);
        ParentOfChild(at.id, c);
        SplitOverCell(s, cfg, Part(s, at.box, points, c), Child(s, at, c), id);
        KidIsGrown(s, cfg, points, at, c);
      }
      KidOfGrown(s, cfg, points, at, 0);
      OverKid(q, id);
      TopIsOver(s, cfg, points, at, id);
    }
  }

  lemma OverKid(q: Quad, id: TileId)
    requires q.Node?
    ensures OverCell(Cells(q), id) <==> exists c :: 0 <= c < 4 && OverCell(Cells(Kid(q, c)), id)
  {
    hide Cells, Above;
    if cell :| cell in Cells(q) && Above(id, cell.at.id) && id != cell.at.id {
      KidCells(q, cell);
    }
    if c :| 0 <= c < 4 && OverCell(Cells(Kid(q, c)), id) {
      var cell :| cell in Cells(Kid(q, c)) && Above(id, cell.at.id) && id != cell.at.id;
      KidCells(q, cell);
    }
  }

  /** On its own level, a split node is the only one above its tiles. */
  lemma TopIsOver(s: Split, cfg: PointBudgetConfig, points: seq<Position>, at: Place, id: TileId)
    requires Planar(at.id) && Grow(s, cfg, points, at).Node? && points != [] && Splits(s, cfg, points, at)
    ensures id.level == at.id.level ==> (id == at.id <==> OverCell(Cells(Grow(s, cfg, points, at)), id))
  {
    hide *;
    var cells := Cells(Grow(s, cfg, points, at));
    TileCountBounds(s, cfg, points, at);
    forall cell | cell in cells ensures Above(at.id, cell.at.id) && at.id != cell.at.id {
      CellLaws(s, cfg, points, at, cell);
    }
    OnlyOneOver(cells, at.id, id);
  }

  lemma OnlyOneOver(cells: seq<Cell>, top: TileId, id: TileId)
    requires cells != [] && forall cell :: cell in cells ==> Above(top, cell.at.id) && top != cell.at.id
    ensures id.level == top.level ==> (id == top <==> OverCell(cells, id))
  {
    hide Up;
    assert cells[0] in cells;
  }

  lemma ChildBelow(id: TileId, c: nat)
    requires Planar(id) && c < 4
    ensures Planar(ChildId(id, c)) && Above(id, ChildId(id, c))
  {
    ParentOfChild(id, c);
  }

  lemma {:induction false} SplitsBelow(s: Split, cfg: PointBudgetConfig, points: seq<Position>, at: Place, id: TileId)
    requires Planar(at.id) && id in SplitIds(Grow(s, cfg, points, at))
    ensures Above(at.id, id)
    decreases cfg.maxDepth - at.id.level
  {
    var q := Grow(s, cfg, points, at);
    hide Grow, Up;
    KidSplits(q, id);
    KidOfGrown(s, cfg, points, at, 0);
    if id != at.id {
      var c :| 0 <= c < 4 && id in SplitIds(Kid(q, c));
      KidOfGrown(s, cfg, points, at, c);
      ChildBelow(at.id, c);
      SplitsBelow(s, cfg, Part(s, at.box, points, c), Child(s, at, c), id);
      AboveTransitive(at.id, ChildId(at.id, c), id);
    } else {
      SelfAbove(id);
    }
  }

  /** Each split is counted once. */
  lemma {:induction false} SplitsDistinct(s: Split, cfg: PointBudgetConfig, points: seq<Position>, at: Place)
    requires Planar(at.id)
    ensures var q := Grow(s, cfg, points, at); |SplitIds(q)| == SplitCount(q)
    decreases cfg.maxDepth - at.id.level
  {
    var q := Grow(s, cfg, points, at);
    if q.Node? {
      hide Grow, Splits, Part;
      forall c: nat | c < 4
        ensures |SplitIds(Kid(q, c))| == SplitCount(Kid(q, c))
        ensures forall id :: id in SplitIds(Kid(q, c)) ==> Above(ChildId(at.id, c), id)
      {
        KidOfGrown(s, cfg, points, at, c);
        ParentOfChild(at.id, c);
        SplitsDistinct(s, cfg, Part(s, at.box, points, c), Child(s, at, c));
        forall id | id in SplitIds(Kid(q, c)) ensures Above(ChildId(at.id, c), id) {
          SplitsBelow(s, cfg, Part(s, at.box, points, c), Child(s, at, c), id);
        }
      }
      forall a: nat, b: nat | a < b < 4 ensures SplitIds(Kid(q, a)) !! SplitIds(Kid(q, b)) {
        ApartBelow(at.id, a, b, SplitIds(Kid(q, a)), SplitIds(Kid(q, b)));
      }
      KidOfGrown(s, cfg, points, at, 0);
      assert forall c: nat :: c < 4 ==> at.id !in SplitIds(Kid(q, c));
      FiveSets(q);
    }
  }

  lemma ApartBelow(id: TileId, a: nat, b: nat, x: set<TileId>, y: set<TileId>)
    requires Planar(id) && a < b < 4
    requires (forall i :: i in x ==> Above(ChildId(id, a), i)) && (forall i :: i in y ==> Above(ChildId(id, b), i))
    ensures x !! y
  {
    hide Above;
    forall i | i in x && i in y ensures false {
      SiblingsIncomparable(id, a, b, i, i);
      SelfAbove(i);
    }
  }

  lemma FiveSets(q: Quad)
    requires q.Node? && forall c: nat :: c < 4 ==> q.at.id !in SplitIds(Kid(q, c))
    requires forall a: nat, b: nat :: a < b < 4 ==> SplitIds(Kid(q, a)) !! SplitIds(Kid(q, b))
    ensures |SplitIds(q)| == 1 + |SplitIds(Kid(q, 0))| + |SplitIds(Kid(q, 1))| + |SplitIds(Kid(q, 2))| + |SplitIds(Kid(q, 3))|
  {
    Disjoint(q.at.id, SplitIds(Kid(q, 0)), SplitIds(Kid(q, 1)), SplitIds(Kid(q, 2)), SplitIds(Kid(q, 3)));
  }

  lemma Disjoint(id: TileId, a: set<TileId>, b: set<TileId>, c: set<TileId>, d: set<TileId>)
    requires id !in a + b + c + d && a !! b && (a + b) !! c && (a + b + c) !! d
    ensures |{id} + a + b + c + d| == 1 + |a| + |b| + |c| + |d|
  {
    assert {id} + a + b + c + d == {id} + (a + b + c + d);
  }

  /** A plan counts as many splits as there are places above its tiles. */
  lemma SplitsCounted(s: Split, cfg: PointBudgetConfig, points: seq<Position>) returns (places: set<TileId>)
    requires cfg.IsValid() && points != [] && AllFinite(points)
    ensures var plan := InMemoryOutcome(s, cfg, points).0;
      && |places| == plan.splitCount
      && forall id :: id in places <==>
           exists t, level: nat :: t in plan.tiles && level < t.id.level && id == Ancestor(t.id, level)
  {
    hide Hull, Depth, Largest, Smallest, Above, Ancestor, Grow, SplitIds, SplitCount, Cells;
    var start := Place(ROOT, Hull(points));
    var q := Grow(s, cfg, points, start);
    places := SplitIds(q);
    SplitsDistinct(s, cfg, points, start);
    forall id
      ensures id in places
         <==> exists t, level: nat :: t in TilesOf(Cells(q)) && level < t.id.level && id == Ancestor(t.id, level)
    {
      SplitOverCell(s, cfg, points, start, id);
      forall cell | cell in Cells(q) ensures Planar(cell.at.id) {
        CellLaws(s, cfg, points, start, cell);
      }
      OverTiles(Cells(q), id);
    }
  }

  lemma OverTiles(cells: seq<Cell>, id: TileId)
    requires forall cell :: cell in cells ==> Planar(cell.at.id)
    ensures 0 <= id.level && OverCell(cells, id)
       <==> exists t, level: nat :: t in TilesOf(cells) && level < t.id.level && id == Ancestor(t.id, level)
  {
    hide Above, Ancestor;
    var tiles := TilesOf(cells);
    if 0 <= id.level && OverCell(cells, id) {
      var cell :| cell in cells && Above(id, cell.at.id) && id != cell.at.id;
      AboveIsAncestor(id, cell.at.id);
      var i :| 0 <= i < |cells| && cells[i] == cell;
      assert tiles[i] in tiles && id == Ancestor(tiles[i].id, id.level);
    }
    if t, level: nat :| t in tiles && level < t.id.level && id == Ancestor(t.id, level) {
      var i :| 0 <= i < |tiles| && tiles[i] == t;
      assert cells[i] in cells;
      AncestorIsAbove(t.id, level);
    }
  }

  lemma AboveIsAncestor(id: TileId, tile: TileId)
    requires Planar(tile) && 0 <= id.level && Above(id, tile) && id != tile
    ensures id.level < tile.level && id == Ancestor(tile, id.level)
  {
    AncestorUp(tile, id.level);
  }

  lemma AncestorIsAbove(tile: TileId, level: nat)
    requires Planar(tile) && level < tile.level
    ensures Above(Ancestor(tile, level), tile) && Ancestor(tile, level) != tile && Ancestor(tile, level).level == level
  {
    AncestorUp(tile, level);
  }
}
