/** Where the tiles of a plan lie and which places become tiles, said in coordinates and counts alone. */
module PlanGeometry {
  import opened Seqs
  import opened TileIds
  import opened Quadtree
  import opened QuadtreeLaws
  import opened InMemoryPlanner

  // ----- The grid

  /** A place of the grid: at each level twice as many columns and rows. */
  predicate InGrid(id: TileId)
  {
    id.level >= 0 && 0 <= id.x < Pow2(id.level) && 0 <= id.y < Pow2(id.level) && id.z == 0
  }

  function Ancestor(id: TileId, level: nat): TileId
    requires level <= id.level
  {
    var size := Pow2(id.level - level);
    TileId(level, id.x / size, id.y / size, 0)
  }

  /** Column `k` of a level: each level halves the columns of the one before, odd ones being the upper halves. */
  function Interval(s: Split, lo: real, hi: real, level: nat, k: nat): (r: (real, real))
    requires lo <= hi
    ensures lo <= r.0 <= r.1 <= hi
    decreases level
  {
    if level == 0 then (lo, hi)
    else
      var (a, b) := Interval(s, lo, hi, level - 1, k / 2);
      if k % 2 == 1 then (s(a, b), b) else (a, s(a, b))
  }

  function BoxOf(s: Split, root: Box, id: TileId): Box
    requires root.IsValid() && Planar(id)
  {
    var (a, b) := Interval(s, root.minX, root.maxX, id.level, id.x);
    var (c, d) := Interval(s, root.minY, root.maxY, id.level, id.y);
    Box(a, b, c, d)
  }

  /** The position lies in the place: the lower sides belong to it, the upper sides only at the end of the grid. */
  predicate LiesIn(s: Split, root: Box, id: TileId, p: Position)
    requires root.IsValid() && Planar(id)
  {
    var b := BoxOf(s, root, id);
    && b.minX <= p.x && (p.x < b.maxX || id.x + 1 == Pow2(id.level))
    && b.minY <= p.y && (p.y < b.maxY || id.y + 1 == Pow2(id.level))
  }

  /** The points that lie in a place. */
  function PointsIn(s: Split, root: Box, points: seq<Position>, id: TileId): seq<Position>
    requires root.IsValid() && Planar(id)
  {
    Filter((p: Position) => LiesIn(s, root, id, p), points)
  }

  /** The points on one side of both split lines of a box. */
  function Quarter(s: Split, b: Box, points: seq<Position>, right: bool, upper: bool): seq<Position>
  {
    Filter((p: Position) => (p.x >= s(b.minX, b.maxX) <==> right) && (p.y >= s(b.minY, b.maxY) <==> upper), points)
  }

  /** The place is to be divided: too many points, room below, an extent in both directions, and of its quarters at least
      two have points and none has points but too few. */
  ghost predicate Divides(s: Split, cfg: PointBudgetConfig, root: Box, points: seq<Position>, id: TileId)
    requires root.IsValid() && Planar(id)
  {
    var b, here := BoxOf(s, root, id), PointsIn(s, root, points, id);
    && |here| > cfg.maxPointsPerTile && id.level < cfg.maxDepth && b.minX != b.maxX && b.minY != b.maxY
    && (exists r, u, r', u' :: (r, u) != (r', u') && Quarter(s, b, here, r, u) != [] && Quarter(s, b, here, r', u') != [])
    && (forall r, u :: Quarter(s, b, here, r, u) != [] ==> |Quarter(s, b, here, r, u)| >= cfg.minPointsPerTile)
  }

  /** The place becomes a tile: it has points, is not divided, and everything above it is. */
  ghost predicate BecomesTile(s: Split, cfg: PointBudgetConfig, root: Box, points: seq<Position>, id: TileId)
    requires root.IsValid()
  {
    && InGrid(id) && PointsIn(s, root, points, id) != [] && !Divides(s, cfg, root, points, id)
    && forall level: nat :: level < id.level ==> Divides(s, cfg, root, points, Ancestor(id, level))
  }

  // ----- Descending is lying in

  lemma AncestorUp(id: TileId, level: nat)
    requires Planar(id) && level <= id.level
    ensures Planar(Ancestor(id, level)) && Ancestor(id, level) == Up(id, id.level - level)
  {
    hide Up, Pow2;
    UpDivides(id, id.level - level);
    ZeroDivided(Pow2(id.level - level));
  }

  lemma ZeroDivided(m: nat)
    requires m > 0
    ensures 0 / m == 0
  {
    Quotient(0, m, 0, 0);
  }

  lemma AncestorsPlanar(id: TileId)
    requires Planar(id)
    ensures forall level: nat :: level <= id.level ==> Planar(Ancestor(id, level))
  {
    forall level: nat | level <= id.level ensures Planar(Ancestor(id, level)) {
      AncestorUp(id, level);
    }
  }

  /** One step down a side of the box. */
  lemma IntervalStep(s: Split, lo: real, hi: real, level: nat, k: nat, up: bool, x: real)
    requires lo <= hi
    ensures var (a, b), next := Interval(s, lo, hi, level, k), Interval(s, lo, hi, level + 1, 2 * k + if up then 1 else 0);
      && next == (if up then (s(a, b), b) else (a, s(a, b)))
      && (next.0 <= x && (x < next.1 || 2 * k + (if up then 1 else 0) + 1 == Pow2(level + 1))
          <==> a <= x && (x < b || k + 1 == Pow2(level)) && (x >= s(a, b) <==> up))
  {
  }

  /** A step down leads to the one place below that the position lies in. */
  lemma StepLies(s: Split, root: Box, id: TileId, p: Position, c: nat)
    requires root.IsValid() && Planar(id) && c < 4
    ensures Planar(ChildId(id, c)) && BoxOf(s, root, ChildId(id, c)) == ChildBox(s, BoxOf(s, root, id), c)
    ensures LiesIn(s, root, ChildId(id, c), p) <==>
              LiesIn(s, root, id, p) && Quadrant(s, BoxOf(s, root, id), p) == c
  {
    hide Interval;
    IntervalStep(s, root.minX, root.maxX, id.level, id.x, c % 2 == 1, p.x);
    IntervalStep(s, root.minY, root.maxY, id.level, id.y, c / 2 == 1, p.y);
  }

  lemma RootLies(s: Split, root: Box, p: Position)
    requires root.IsValid() && root.Contains(p)
    ensures InGrid(ROOT) && BoxOf(s, root, ROOT) == root && LiesIn(s, root, ROOT, p)
  {
  }

  /** Halving leads from the root to places of the grid that the position lies in. */
  lemma {:induction false} DescentLies(s: Split, root: Box, p: Position, n: nat)
    requires root.IsValid() && root.Contains(p)
    ensures var d := Descend(s, Place(ROOT, root), p, n);
      InGrid(d.id) && d.box == BoxOf(s, root, d.id) && LiesIn(s, root, d.id, p)
  {
    hide LiesIn, BoxOf, Quadrant, ChildBox;
    if n == 0 {
      RootLies(s, root, p);
    } else {
      DescentLies(s, root, p, n - 1);
      DescendLast(s, Place(ROOT, root), p, n - 1);
      var d := Descend(s, Place(ROOT, root), p, n - 1);
      hide Descend;
      StepLies(s, root, d.id, p, Quadrant(s, d.box, p));
      ChildInGrid(d.id, Quadrant(s, d.box, p));
    }
  }

  lemma ChildInGrid(id: TileId, c: nat)
    requires InGrid(id) && c < 4
    ensures InGrid(ChildId(id, c))
  {
  }

  lemma InUpperPlace(id: TileId)
    requires InGrid(id) && id.level > 0
    ensures var up, c := TileId(id.level - 1, id.x / 2, id.y / 2, 0), id.x % 2 + 2 * (id.y % 2);
      InGrid(up) && c < 4 && ChildId(up, c) == id
  {
  }

  /** And to every such place. */
  lemma {:induction false} LyingReached(s: Split, root: Box, p: Position, id: TileId)
    requires root.IsValid() && root.Contains(p) && InGrid(id) && LiesIn(s, root, id, p)
    ensures Descend(s, Place(ROOT, root), p, id.level) == Place(id, BoxOf(s, root, id))
    decreases id.level
  {
    hide LiesIn, BoxOf, Descend, Quadrant, ChildId, ChildBox, Step, Pow2;
    if id.level == 0 {
      TopPlace(id);
      DescendNone(s, Place(ROOT, root), p);
      RootLies(s, root, p);
    } else {
      var up, c := TileId(id.level - 1, id.x / 2, id.y / 2, 0), id.x % 2 + 2 * (id.y % 2);
      InUpperPlace(id);
      GridPlanar(up);
      StepLies(s, root, up, p, c);
      LyingReached(s, root, p, up);
      DescendLast(s, Place(ROOT, root), p, up.level);
      StepTaken(s, Place(up, BoxOf(s, root, up)), p);
    }
  }

  lemma TopPlace(id: TileId)
    requires InGrid(id) && id.level == 0
    ensures id == ROOT
  {
  }

  lemma StepTaken(s: Split, at: Place, p: Position)
    ensures var c := Quadrant(s, at.box, p); Step(s, at, p) == Place(ChildId(at.id, c), ChildBox(s, at.box, c))
  {
  }

  // ----- The planner's splits are the divisions

  lemma ReachesIsLying(s: Split, root: Box, p: Position, id: TileId)
    requires root.IsValid() && InGrid(id) && root.Contains(p)
    ensures Reaches(s, Place(ROOT, root), p, Place(id, BoxOf(s, root, id))) <==> LiesIn(s, root, id, p)
  {
    hide LiesIn, BoxOf, Descend;
    DescentLies(s, root, p, id.level);
    if LiesIn(s, root, id, p) {
      LyingReached(s, root, p, id);
    }
  }

  /** The points that halve their way to a place are those that lie in it. */
  lemma ArrivalsLie(s: Split, root: Box, points: seq<Position>, id: TileId)
    requires root.IsValid() && InGrid(id) && forall p :: p in points ==> root.Contains(p)
    ensures Arrivals(s, Place(ROOT, root), points, Place(id, BoxOf(s, root, id))) == PointsIn(s, root, points, id)
  {
    GridPlanar(id);
    hide Filter, LiesIn, BoxOf, Reaches, InGrid;
    var to := Place(id, BoxOf(s, root, id));
    forall p | p in points ensures Reaches(s, Place(ROOT, root), p, to) <==> LiesIn(s, root, id, p) {
      ReachesIsLying(s, root, p, id);
    }
    FilterAgree((p: Position) => Reaches(s, Place(ROOT, root), p, to), (p: Position) => LiesIn(s, root, id, p), points);
  }

  lemma QuarterIsPart(s: Split, b: Box, points: seq<Position>, right: bool, upper: bool)
    ensures Quarter(s, b, points, right, upper) == Part(s, b, points, (if right then 1 else 0) + if upper then 2 else 0)
  {
    var c := (if right then 1 else 0) + if upper then 2 else 0;
    FilterAgree((p: Position) => (p.x >= s(b.minX, b.maxX) <==> right) && (p.y >= s(b.minY, b.maxY) <==> upper),
                (p: Position) => Quadrant(s, b, p) == c, points);
  }

  lemma SplitIsDivision(s: Split, cfg: PointBudgetConfig, root: Box, points: seq<Position>, id: TileId)
    requires root.IsValid() && Planar(id)
    ensures Splits(s, cfg, PointsIn(s, root, points, id), Place(id, BoxOf(s, root, id)))
       <==> Divides(s, cfg, root, points, id)
  {
    hide Filter, BoxOf, PointsIn, Part, Quarter, NonEmpty;
    var b, here := BoxOf(s, root, id), PointsIn(s, root, points, id);
    QuarterIsPart(s, b, here, false, false);
    QuarterIsPart(s, b, here, true, false);
    QuarterIsPart(s, b, here, false, true);
    QuarterIsPart(s, b, here, true, true);
    NonEmptyOfFour(PartCounts(s, b, here));
  }

  /** What became a tile was not split. */
  lemma {:induction false} LeafUndivided(s: Split, cfg: PointBudgetConfig, points: seq<Position>, at: Place, cell: Cell)
    requires cell in Cells(Grow(s, cfg, points, at))
    ensures !Splits(s, cfg, cell.points, cell.at)
    decreases cfg.maxDepth - at.id.level
  {
    hide Part;
    if points != [] && Splits(s, cfg, points, at) {
      var c := CellInKid(s, cfg, points, at, cell);
      LeafUndivided(s, cfg, Part(s, at.box, points, c), Child(s, at, c), cell);
    }
  }

  lemma DescendOn(s: Split, at: Place, p: Position, n: nat)
    requires n > 0
    ensures Descend(s, at, p, n) == Descend(s, Child(s, at, Quadrant(s, at.box, p)), p, n - 1)
  {
  }

  lemma DescendNone(s: Split, at: Place, p: Position)
    ensures Descend(s, at, p, 0) == at
  {
  }

  lemma ReachersOfCell(s: Split, cfg: PointBudgetConfig, points: seq<Position>, at: Place, cell: Cell, p: Position)
    requires Planar(at.id) && cell in Cells(Grow(s, cfg, points, at)) && p in cell.points
    ensures p in points && at.id.level <= cell.at.id.level
    ensures Descend(s, at, p, cell.at.id.level - at.id.level) == cell.at
  {
    hide Grow, Descend;
    CellPoints(s, cfg, points, at, cell);
    FilterMember((x: Position) => Reaches(s, at, x, cell.at), points, p);
  }

  lemma StartSplits(s: Split, cfg: PointBudgetConfig, points: seq<Position>, at: Place, cell: Cell)
    requires Planar(at.id) && cell in Cells(Grow(s, cfg, points, at)) && at.id.level < cell.at.id.level
    ensures points != [] && Splits(s, cfg, points, at) && Arrivals(s, at, points, at) == points
  {
    CellLaws(s, cfg, points, at, cell);
    FilterAll((x: Position) => Reaches(s, at, x, at), points);
  }

  lemma InPart(s: Split, at: Place, points: seq<Position>, c: nat, p: Position)
    requires c < 4 && p in Part(s, at.box, points, c)
    ensures Quadrant(s, at.box, p) == c
  {
    FilterMember((x: Position) => Quadrant(s, at.box, x) == c, points, p);
  }

  lemma ChildPlace(s: Split, at: Place, c: nat)
    requires Planar(at.id) && c < 4
    ensures Child(s, at, c).id == ChildId(at.id, c) && Planar(ChildId(at.id, c)) && ChildId(at.id, c).level == at.id.level + 1
  {
  }

  lemma BelowChild(s: Split, at: Place, c: nat, p: Position, n: nat)
    requires Planar(at.id) && c < 4
    ensures Above(ChildId(at.id, c), Descend(s, Child(s, at, c), p, n).id)
  {
    hide Descend, Up, ChildBox;
    ParentOfChild(at.id, c);
    UpAfterDescend(s, Child(s, at, c), p, n);
  }

  /** Every place on the way to a tile was split. */
  lemma {:induction false} SplitOnTheWay(s: Split, cfg: PointBudgetConfig, points: seq<Position>, at: Place, cell: Cell,
                                         p: Position, n: nat)
    requires Planar(at.id) && cell in Cells(Grow(s, cfg, points, at)) && p in cell.points
    requires at.id.level + n < cell.at.id.level
    ensures var a := Descend(s, at, p, n); Splits(s, cfg, Arrivals(s, at, points, a), a)
    decreases n
  {
    hide *;
    StartSplits(s, cfg, points, at, cell);
    if n == 0 {
      DescendNone(s, at, p);
    } else {
      var c := CellInKid(s, cfg, points, at, cell);
      var part := Part(s, at.box, points, c);
      ChildPlace(s, at, c);
      KidIsGrown(s, cfg, points, at, c);
      ReachersOfCell(s, cfg, part, Child(s, at, c), cell, p);
      InPart(s, at, points, c, p);
      DescendOn(s, at, p, n);
      SplitOnTheWay(s, cfg, part, Child(s, at, c), cell, p, n - 1);
      BelowChild(s, at, c, p, n - 1);
      ArrivalsThrough(s, at, points, c, Descend(s, at, p, n));
    }
  }

  lemma GridPlanar(id: TileId)
    requires InGrid(id)
    ensures Planar(id)
  {
  }

  lemma DescentPasses(s: Split, root: Box, p: Position, n: nat, level: nat)
    requires root.IsValid() && root.Contains(p) && level <= n
    ensures var d, a := Descend(s, Place(ROOT, root), p, n), Descend(s, Place(ROOT, root), p, level);
      d.id.level == n && a.id == Ancestor(d.id, level) && InGrid(a.id) && a.box == BoxOf(s, root, a.id)
  {
    hide BoxOf, LiesIn, InGrid, Ancestor, Up, Descend, Pow2;
    var d, a := Descend(s, Place(ROOT, root), p, n), Descend(s, Place(ROOT, root), p, level);
    DescentLies(s, root, p, level);
    DescentLies(s, root, p, n);
    GridPlanar(d.id);
    GridPlanar(a.id);
    DescendFurther(s, Place(ROOT, root), p, level, n - level);
    UpAfterDescend(s, a, p, n - level);
    AncestorUp(d.id, level);
  }

  /** A tile of the grown tree lies in its place, has the points there, and is a place that becomes a tile. */
  lemma CellBecomesTile(s: Split, cfg: PointBudgetConfig, root: Box, points: seq<Position>, cell: Cell)
    requires root.IsValid() && forall p :: p in points ==> root.Contains(p)
    requires cell in Cells(Grow(s, cfg, points, Place(ROOT, root)))
    ensures BecomesTile(s, cfg, root, points, cell.at.id)
    ensures cell.at.box == BoxOf(s, root, cell.at.id) && cell.points == PointsIn(s, root, points, cell.at.id)
  {
    hide Splits, Grow, Divides, BoxOf, LiesIn, PointsIn, Ancestor, InGrid, Descend, Arrivals, Pow2, Up;
    var start, id := Place(ROOT, root), cell.at.id;
    CellLaws(s, cfg, points, start, cell);
    CellPoints(s, cfg, points, start, cell);
    var p := cell.points[0];
    assert p in cell.points;
    ReachersOfCell(s, cfg, points, start, cell, p);
    DescentLies(s, root, p, id.level);
    ArrivalsLie(s, root, points, id);
    LeafUndivided(s, cfg, points, start, cell);
    SplitIsDivision(s, cfg, root, points, id);
    AncestorsPlanar(id);
    forall level: nat | level < id.level ensures Divides(s, cfg, root, points, Ancestor(id, level)) {
      DescentPasses(s, root, p, id.level, level);
      SplitOnTheWay(s, cfg, points, start, cell, p, level);
      ArrivalsLie(s, root, points, Ancestor(id, level));
      SplitIsDivision(s, cfg, root, points, Ancestor(id, level));
    }
  }

  lemma PointInPlace(s: Split, cfg: PointBudgetConfig, root: Box, points: seq<Position>, id: TileId) returns (p: Position)
    requires root.IsValid() && BecomesTile(s, cfg, root, points, id)
    ensures p in points && LiesIn(s, root, id, p)
  {
    hide LiesIn, Divides;
    p := PointsIn(s, root, points, id)[0];
    assert p in PointsIn(s, root, points, id);
    FilterMember((x: Position) => LiesIn(s, root, id, x), points, p);
  }

  /** Every place that becomes a tile is a tile of the grown tree. */
  lemma BecomesCell(s: Split, cfg: PointBudgetConfig, root: Box, points: seq<Position>, id: TileId) returns (cell: Cell)
    requires root.IsValid() && forall p :: p in points ==> root.Contains(p)
    requires BecomesTile(s, cfg, root, points, id)
    ensures cell in Cells(Grow(s, cfg, points, Place(ROOT, root))) && cell.at.id == id
  {
    hide *;
    var start := Place(ROOT, root);
    BecomesInGrid(s, cfg, root, points, id);
    var p := PointInPlace(s, cfg, root, points, id);
    LyingReached(s, root, p, id);
    RootLies(s, root, p);
    GridPlanar(ROOT);
    cell := EveryPointCounted(s, cfg, points, start, p);
    CellBecomesTile(s, cfg, root, points, cell);
    ReachersOfCell(s, cfg, points, start, cell, p);
    OnePlaceOfPoint(s, cfg, root, points, p, id, cell.at.id);
  }

  /** On the way of a position, only one place becomes a tile. */
  lemma OnePlaceOfPoint(s: Split, cfg: PointBudgetConfig, root: Box, points: seq<Position>, p: Position, a: TileId, b: TileId)
    requires root.IsValid() && root.Contains(p)
    requires BecomesTile(s, cfg, root, points, a) && BecomesTile(s, cfg, root, points, b)
    requires a.level >= 0 && b.level >= 0
    requires Descend(s, Place(ROOT, root), p, a.level).id == a && Descend(s, Place(ROOT, root), p, b.level).id == b
    ensures a == b
  {
    if a.level < b.level {
      NotAbove(s, cfg, root, points, p, a, b);
    } else if b.level < a.level {
      NotAbove(s, cfg, root, points, p, b, a);
    }
  }

  lemma NotAbove(s: Split, cfg: PointBudgetConfig, root: Box, points: seq<Position>, p: Position, a: TileId, b: TileId)
    requires root.IsValid() && root.Contains(p)
    requires BecomesTile(s, cfg, root, points, a) && BecomesTile(s, cfg, root, points, b) && 0 <= a.level < b.level
    ensures !(Descend(s, Place(ROOT, root), p, a.level).id == a && Descend(s, Place(ROOT, root), p, b.level).id == b)
  {
    hide Divides, Ancestor, Descend, BoxOf;
    DescentPasses(s, root, p, b.level, a.level);
  }

  /** The tiles of every plan of a non-empty finite point set are exactly the places that become tiles, each once; a
      tile's box is that of its place, and it counts the points that lie there. */
  lemma PlanDetermined(s: Split, cfg: PointBudgetConfig, points: seq<Position>)
    requires cfg.IsValid() && points != [] && AllFinite(points)
    ensures Hull(points).IsValid()
    ensures var tiles := InMemoryOutcome(s, cfg, points).0.tiles;
      && UniqueBy((t: PointBudgetTile) => t.id, tiles)
      && (forall t :: t in tiles ==> InPlace(s, Hull(points), points, t))
      && (forall id :: (exists t :: t in tiles && t.id == id) <==> BecomesTile(s, cfg, Hull(points), points, id))
  {
    hide Grow, Hull, BecomesTile, BoxOf, PointsIn, Depth, Largest, Smallest, Above;
    var root := Hull(points);
    var _, _, _, _ := HullLaws(points);
    var cells := Cells(Grow(s, cfg, points, Place(ROOT, root)));
    var tiles := TilesOf(cells);
    GrowPrefixFree(s, cfg, points, Place(ROOT, root));
    forall i | 0 <= i < |tiles|
      ensures BecomesTile(s, cfg, root, points, tiles[i].id) && InPlace(s, root, points, tiles[i])
    {
      assert cells[i] in cells;
      CellBecomesTile(s, cfg, root, points, cells[i]);
      BecomesInGrid(s, cfg, root, points, tiles[i].id);
    }
    forall i, j | 0 <= i < j < |tiles| ensures tiles[i].id != tiles[j].id {
      assert !Above(cells[i].at.id, cells[j].at.id);
      SelfAbove(cells[i].at.id);
    }
    forall id | BecomesTile(s, cfg, root, points, id) ensures exists t :: t in tiles && t.id == id {
      var cell := BecomesCell(s, cfg, root, points, id);
      var i :| 0 <= i < |cells| && cells[i] == cell;
      assert tiles[i] in tiles;
    }
  }

  lemma SelfAbove(id: TileId)
    ensures Above(id, id)
  {
  }

  lemma BecomesInGrid(s: Split, cfg: PointBudgetConfig, root: Box, points: seq<Position>, id: TileId)
    requires root.IsValid() && BecomesTile(s, cfg, root, points, id)
    ensures InGrid(id) && Planar(id)
  {
  }

  /** The tile has the box of its place, and counts the points there. */
  predicate InPlace(s: Split, root: Box, points: seq<Position>, t: PointBudgetTile)
    requires root.IsValid()
  {
    InGrid(t.id) && t.box == BoxOf(s, root, t.id) && t.pointCount == |PointsIn(s, root, points, t.id)|
  }
}
