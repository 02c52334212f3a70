/** What every grown tree satisfies: conservation of points, prefix-free tiles, nested boxes, counters. */
module QuadtreeLaws {
  import opened Seqs
  import opened TileIds
  import opened Quadtree

  ghost predicate AllBelow(cells: seq<Cell>, id: TileId)
  {
    forall c :: c in cells ==> Above(id, c.at.id)
  }

  /** No tile is, or lies above, another tile of the plan. */
  ghost predicate PrefixFree(cells: seq<Cell>)
  {
    forall i, j :: 0 <= i < |cells| && 0 <= j < |cells| && i != j ==> !Above(cells[i].at.id, cells[j].at.id)
  }

  lemma KidCells(q: Quad, cell: Cell)
    requires q.Node?
    ensures cell in Cells(q) <==> exists c :: 0 <= c < 4 && cell in Cells(Kid(q, c))
  {
    assert Kid(q, 0) == q.k0 && Kid(q, 1) == q.k1 && Kid(q, 2) == q.k2 && Kid(q, 3) == q.k3;
  }

  /** The parts of a node share out its points. */
  lemma PartsShare(s: Split, box: Box, points: seq<Position>)
    ensures Sum(PartCounts(s, box, points)) == |points|
  {
    var f0 := (p: Position) => Quadrant(s, box, p) == 0;
    var f1 := (p: Position) => Quadrant(s, box, p) == 1;
    var f2 := (p: Position) => Quadrant(s, box, p) == 2;
    var f3 := (p: Position) => Quadrant(s, box, p) == 3;
    var f01 := (p: Position) => Quadrant(s, box, p) < 2;
    var f23 := (p: Position) => Quadrant(s, box, p) >= 2;
    var all := (p: Position) => true;
    FilterSplit(f0, f1, f01, points);
    FilterSplit(f2, f3, f23, points);
    FilterSplit(f01, f23, all, points);
    FilterAll(all, points);
    var n := PartCounts(s, box, points);
    assert n[..3][..2] == n[..2] && n[..2][..1] == n[..1] && n[..1][..0] == [];
    assert Sum(n) == Sum(n[..3]) + n[3] && Sum(n[..3]) == Sum(n[..2]) + n[2] && Sum(n[..2]) == Sum(n[..1]) + n[1];
  }

  /** A tile of a grown node is a tile of one of its grown children. */
  lemma CellInKid(s: Split, cfg: PointBudgetConfig, points: seq<Position>, at: Place, cell: Cell) returns (c: nat)
    requires points != [] && Splits(s, cfg, points, at) && cell in Cells(Grow(s, cfg, points, at))
    ensures c < 4 && cell in Cells(GrownKid(s, cfg, points, at, c))
  {
    var q := Grow(s, cfg, points, at);
    KidCells(q, cell);
    c :| 0 <= c < 4 && cell in Cells(Kid(q, c));
  }

  /** Every tile counts a point and lies below the start, within the depth limit. */
  lemma {:induction false} CellLaws(s: Split, cfg: PointBudgetConfig, points: seq<Position>, at: Place, cell: Cell)
    requires Planar(at.id) && cell in Cells(Grow(s, cfg, points, at))
    ensures cell.points != []
    ensures Planar(cell.at.id) && Above(at.id, cell.at.id)
    ensures cell.at.id.level <= Max(at.id.level, cfg.maxDepth)
    ensures Splits(s, cfg, points, at) ==> at.id.level < cell.at.id.level
    decreases cfg.maxDepth - at.id.level
  {
    if points != [] && Splits(s, cfg, points, at) {
      var c := CellInKid(s, cfg, points, at, cell);
      ParentOfChild(at.id, c);
      CellLaws(s, cfg, Part(s, at.box, points, c), Child(s, at, c), cell);
      AboveTransitive(at.id, ChildId(at.id, c), cell.at.id);
    }
  }

  /** Every tile but the start itself holds at least the minimum. */
  lemma {:induction false} CellMinimum(s: Split, cfg: PointBudgetConfig, points: seq<Position>, at: Place, cell: Cell)
    requires Planar(at.id) && cell in Cells(Grow(s, cfg, points, at)) && cell.at.id != at.id
    ensures |cell.points| >= cfg.minPointsPerTile
    decreases cfg.maxDepth - at.id.level
  {
    var c := CellInKid(s, cfg, points, at, cell);
    var part := Part(s, at.box, points, c);
    ParentOfChild(at.id, c);
    if cell.at.id != ChildId(at.id, c) {
      CellMinimum(s, cfg, part, Child(s, at, c), cell);
    } else {
      CellLaws(s, cfg, part, Child(s, at, c), cell);
      assert cell.points == part;
      assert PartCounts(s, at.box, points)[c] == |part|;
    }
  }

  lemma GrowBelow(s: Split, cfg: PointBudgetConfig, points: seq<Position>, at: Place)
    requires Planar(at.id)
    ensures AllBelow(Cells(Grow(s, cfg, points, at)), at.id)
  {
    forall c | c in Cells(Grow(s, cfg, points, at)) ensures Above(at.id, c.at.id) {
      CellLaws(s, cfg, points, at, c);
    }
  }

  lemma PrefixFreeConcat(a: seq<Cell>, b: seq<Cell>)
    requires PrefixFree(a) && PrefixFree(b)
    requires forall x, y :: x in a && y in b ==> !Above(x.at.id, y.at.id) && !Above(y.at.id, x.at.id)
    ensures PrefixFree(a + b)
  {
    var ab := a + b;
    forall i, j | 0 <= i < |ab| && 0 <= j < |ab| && i != j ensures !Above(ab[i].at.id, ab[j].at.id) {
      if i < |a| && j >= |a| {
        assert ab[i] in a && ab[j] in b;
      } else if i >= |a| && j < |a| {
        assert ab[j] in a && ab[i] in b;
      }
    }
  }

  /** Tiles below different children of one node are incomparable. */
  lemma SiblingsIncomparable(id: TileId, a: nat, b: nat, x: TileId, y: TileId)
    requires Planar(id) && a < 4 && b < 4 && a != b
    requires Above(ChildId(id, a), x) && Above(ChildId(id, b), y)
    ensures !Above(x, y)
  {
    if Above(x, y) {
      AboveTransitive(ChildId(id, a), x, y);
      AboveLinear(ChildId(id, a), ChildId(id, b), y);
      ChildIdsDiffer(id, a, b);
    }
  }

  lemma {:induction false} GrowPrefixFree(s: Split, cfg: PointBudgetConfig, points: seq<Position>, at: Place)
    requires Planar(at.id)
    ensures PrefixFree(Cells(Grow(s, cfg, points, at)))
    decreases cfg.maxDepth - at.id.level
  {
    var q := Grow(s, cfg, points, at);
    if q.Node? {
      forall c: nat | c < 4
        ensures PrefixFree(Cells(GrownKid(s, cfg, points, at, c)))
        ensures AllBelow(Cells(GrownKid(s, cfg, points, at, c)), ChildId(at.id, c))
      {
        ParentOfChild(at.id, c);
        GrowPrefixFree(s, cfg, Part(s, at.box, points, c), Child(s, at, c));
        GrowBelow(s, cfg, Part(s, at.box, points, c), Child(s, at, c));
      }
      forall a: nat, b: nat, x, y | a < 4 && b < 4 && a != b
        && Above(ChildId(at.id, a), x) && Above(ChildId(at.id, b), y)
        ensures !Above(x, y)
      {
        SiblingsIncomparable(at.id, a, b, x, y);
      }
      var k0, k1, k2, k3 := Cells(q.k0), Cells(q.k1), Cells(q.k2), Cells(q.k3);
      assert q.k0 == GrownKid(s, cfg, points, at, 0) && q.k1 == GrownKid(s, cfg, points, at, 1);
      assert q.k2 == GrownKid(s, cfg, points, at, 2) && q.k3 == GrownKid(s, cfg, points, at, 3);
      PrefixFreeConcat(k0, k1);
      PrefixFreeConcat(k0 + k1, k2);
      PrefixFreeConcat(k0 + k1 + k2, k3);
    }
  }

  /** The points that halve their way from `from` to `to`. */
  function Arrivals(s: Split, from: Place, points: seq<Position>, to: Place): seq<Position>
  {
    Filter((p: Position) => Reaches(s, from, p, to), points)
  }

  lemma ArrivalsThrough(s: Split, at: Place, points: seq<Position>, c: nat, to: Place)
    requires Planar(at.id) && c < 4 && Above(ChildId(at.id, c), to.id)
    ensures Arrivals(s, Child(s, at, c), Part(s, at.box, points, c), to) == Arrivals(s, at, points, to)
  {
    var inPart := (p: Position) => Quadrant(s, at.box, p) == c;
    var there := (p: Position) => Reaches(s, Child(s, at, c), p, to);
    var here := (p: Position) => Reaches(s, at, p, to);
    forall p | p in points ensures here(p) == (inPart(p) && there(p)) {
      ReachesThrough(s, at, p, c, to);
    }
    FilterTwice(there, inPart, here, points);
  }

  /** A tile's points are exactly those that halve their way to it. */
  lemma {:induction false} CellPoints(s: Split, cfg: PointBudgetConfig, points: seq<Position>, at: Place, cell: Cell)
    requires Planar(at.id) && cell in Cells(Grow(s, cfg, points, at))
    ensures cell.points == Arrivals(s, at, points, cell.at)
    decreases cfg.maxDepth - at.id.level
  {
    if !Splits(s, cfg, points, at) {
      FilterAll((p: Position) => Reaches(s, at, p, at), points);
    } else {
      var c := CellInKid(s, cfg, points, at, cell);
      ParentOfChild(at.id, c);
      CellLaws(s, cfg, Part(s, at.box, points, c), Child(s, at, c), cell);
      CellPoints(s, cfg, Part(s, at.box, points, c), Child(s, at, c), cell);
      ArrivalsThrough(s, at, points, c, cell.at);
    }
  }

  /** A place below child `c` is reached exactly by the points of child `c` that go on to it. */
  lemma ReachesThrough(s: Split, at: Place, p: Position, c: nat, to: Place)
    requires Planar(at.id) && c < 4 && Above(ChildId(at.id, c), to.id)
    ensures Reaches(s, at, p, to) <==> Quadrant(s, at.box, p) == c && Reaches(s, Child(s, at, c), p, to)
  {
    if Reaches(s, at, p, to) {
      var d := Quadrant(s, at.box, p);
      ParentOfChild(at.id, d);
      UpAfterDescend(s, Child(s, at, d), p, to.id.level - at.id.level - 1);
      ChildIdsDiffer(at.id, c, d);
    }
  }

  /** Every point is counted by some tile. */
  lemma {:induction false} EveryPointCounted(s: Split, cfg: PointBudgetConfig, points: seq<Position>, at: Place, p: Position)
    returns (cell: Cell)
    requires p in points
    ensures cell in Cells(Grow(s, cfg, points, at)) && p in cell.points
    decreases cfg.maxDepth - at.id.level
  {
    var q := Grow(s, cfg, points, at);
    if q.Leaf? {
      cell := q.cell;
    } else {
      var c := Quadrant(s, at.box, p);
      var part := Part(s, at.box, points, c);
      FilterMember((x: Position) => Quadrant(s, at.box, x) == c, points, p);
      cell := EveryPointCounted(s, cfg, part, Child(s, at, c), p);
      KidIsGrown(s, cfg, points, at, c);
      KidCells(q, cell);
    }
  }

  /** Boxes nest, and a tile's box holds those of its points that the start's box holds. */
  lemma {:induction false} CellBox(s: Split, cfg: PointBudgetConfig, points: seq<Position>, at: Place, cell: Cell)
    requires at.box.IsValid() && cell in Cells(Grow(s, cfg, points, at))
    ensures cell.at.box.IsValid() && cell.at.box.Inside(at.box)
    ensures forall p :: p in cell.points ==> p in points && (at.box.Contains(p) ==> cell.at.box.Contains(p))
    decreases cfg.maxDepth - at.id.level
  {
    if points != [] && Splits(s, cfg, points, at) {
      var c := CellInKid(s, cfg, points, at, cell);
      var part := Part(s, at.box, points, c);
      forall p: Position | p in part
        ensures p in points && (at.box.Contains(p) ==> ChildBox(s, at.box, c).Contains(p))
      {
        FilterMember((x: Position) => Quadrant(s, at.box, x) == c, points, p);
      }
      assert at.box.minX <= s(at.box.minX, at.box.maxX) <= at.box.maxX;
      assert at.box.minY <= s(at.box.minY, at.box.maxY) <= at.box.maxY;
      CellBox(s, cfg, part, Child(s, at, c), cell);
    }
  }

  function CellCounts(cells: seq<Cell>): (r: seq<nat>)
    ensures |r| == |cells|
  {
    seq(|cells|, i requires 0 <= i < |cells| => |cells[i].points|)
  }

  lemma CellCountsConcat(a: seq<Cell>, b: seq<Cell>)
    ensures Sum(CellCounts(a + b)) == Sum(CellCounts(a)) + Sum(CellCounts(b))
  {
    assert CellCounts(a + b) == CellCounts(a) + CellCounts(b);
    SumConcat(CellCounts(a), CellCounts(b));
  }

  /** The tiles' counts add up to the points. */
  lemma {:induction false} GrowConserves(s: Split, cfg: PointBudgetConfig, points: seq<Position>, at: Place)
    ensures Sum(CellCounts(Cells(Grow(s, cfg, points, at)))) == |points|
    decreases cfg.maxDepth - at.id.level
  {
    var q := Grow(s, cfg, points, at);
    if q.Leaf? {
      assert CellCounts(Cells(q)) == [|points|];
      assert [|points|][..0] == [];
    } else if q.Node? {
      forall c: nat | c < 4
        ensures Sum(CellCounts(Cells(GrownKid(s, cfg, points, at, c)))) == |Part(s, at.box, points, c)|
      {
        GrowConserves(s, cfg, Part(s, at.box, points, c), Child(s, at, c));
      }
      var k0, k1, k2, k3 := Cells(q.k0), Cells(q.k1), Cells(q.k2), Cells(q.k3);
      assert q.k0 == GrownKid(s, cfg, points, at, 0) && q.k1 == GrownKid(s, cfg, points, at, 1);
      assert q.k2 == GrownKid(s, cfg, points, at, 2) && q.k3 == GrownKid(s, cfg, points, at, 3);
      CellCountsConcat(k0 + k1 + k2, k3);
      CellCountsConcat(k0 + k1, k2);
      CellCountsConcat(k0, k1);
      PartsShare(s, at.box, points);
      var n := PartCounts(s, at.box, points);
      assert n[..3][..2] == n[..2] && n[..2][..1] == n[..1] && n[..1][..0] == [];
      assert Sum(n) == Sum(n[..3]) + n[3] && Sum(n[..3]) == Sum(n[..2]) + n[2] && Sum(n[..2]) == Sum(n[..1]) + n[1];
    }
  }

  /** A split always makes between two and four tiles out of one. */
  lemma {:induction false} TileCountBounds(s: Split, cfg: PointBudgetConfig, points: seq<Position>, at: Place)
    requires points != []
    ensures var q := Grow(s, cfg, points, at);
      SplitCount(q) + 1 <= |Cells(q)| <= 3 * SplitCount(q) + 1
    decreases cfg.maxDepth - at.id.level
  {
    var q := Grow(s, cfg, points, at);
    if q.Node? {
      forall c: nat | c < 4
        ensures var k := GrownKid(s, cfg, points, at, c);
          if Part(s, at.box, points, c) == [] then |Cells(k)| == SplitCount(k) == 0
          else SplitCount(k) + 1 <= |Cells(k)| <= 3 * SplitCount(k) + 1
      {
        if Part(s, at.box, points, c) != [] {
          TileCountBounds(s, cfg, Part(s, at.box, points, c), Child(s, at, c));
        }
      }
      assert q.k0 == GrownKid(s, cfg, points, at, 0) && q.k1 == GrownKid(s, cfg, points, at, 1);
      assert q.k2 == GrownKid(s, cfg, points, at, 2) && q.k3 == GrownKid(s, cfg, points, at, 3);
      NonEmptyOfFour(PartCounts(s, at.box, points));
    }
  }

  lemma NonEmptyOfFour(n: seq<nat>)
    requires |n| == 4
    ensures NonEmpty(n) == (if n[0] > 0 then 1 else 0) + (if n[1] > 0 then 1 else 0)
                         + (if n[2] > 0 then 1 else 0) + (if n[3] > 0 then 1 else 0)
  {
    assert n[..3][..2] == n[..2] && n[..2][..1] == n[..1] && n[..1][..0] == [];
    assert NonEmpty(n) == NonEmpty(n[..3]) + (if n[3] > 0 then 1 else 0);
    assert NonEmpty(n[..3]) == NonEmpty(n[..2]) + (if n[2] > 0 then 1 else 0);
    assert NonEmpty(n[..2]) == NonEmpty(n[..1]) + (if n[1] > 0 then 1 else 0);
  }

  /** The depth is the level of the deepest tile, or the floor it starts from. */
  ghost predicate IsDeepest(cells: seq<Cell>, floor: int, depth: int)
  {
    && floor <= depth && (forall cell :: cell in cells ==> cell.at.id.level <= depth)
    && (depth == floor || exists cell :: cell in cells && cell.at.id.level == depth)
  }

  lemma DeepestTwice(a: seq<Cell>, b: seq<Cell>, floor: int, mid: int, depth: int)
    requires IsDeepest(a, floor, mid) && IsDeepest(b, mid, depth)
    ensures IsDeepest(a + b, floor, depth)
  {
    if depth != floor {
      var cell :| cell in a + b && cell.at.id.level == depth;
    }
  }

  lemma {:induction false} GrownDepth(s: Split, cfg: PointBudgetConfig, points: seq<Position>, at: Place, floor: int)
    requires Planar(at.id)
    ensures var q := Grow(s, cfg, points, at); IsDeepest(Cells(q), floor, Depth(q, floor))
    decreases cfg.maxDepth - at.id.level
  {
    var q := Grow(s, cfg, points, at);
    if q.Node? {
      KidDepth(s, cfg, points, at, floor);
    }
  }

  lemma {:induction false} KidDepth(s: Split, cfg: PointBudgetConfig, points: seq<Position>, at: Place, floor: int)
    requires Planar(at.id) && Grow(s, cfg, points, at).Node?
    ensures var q := Grow(s, cfg, points, at); IsDeepest(Cells(q), floor, Depth(q, floor))
    decreases cfg.maxDepth - at.id.level, 0
  {
    var q := Grow(s, cfg, points, at);
    assert q.k0 == GrownKid(s, cfg, points, at, 0) && q.k1 == GrownKid(s, cfg, points, at, 1);
    assert q.k2 == GrownKid(s, cfg, points, at, 2) && q.k3 == GrownKid(s, cfg, points, at, 3);
    var d := Max(floor, at.id.level);
    var d0 := Depth(q.k0, d);
    var d1 := Depth(q.k1, d0);
    var d2 := Depth(q.k2, d1);
    forall c: nat, f: int | c < 4
      ensures IsDeepest(Cells(GrownKid(s, cfg, points, at, c)), f, Depth(GrownKid(s, cfg, points, at, c), f))
    {
      ParentOfChild(at.id, c);
      GrownDepth(s, cfg, Part(s, at.box, points, c), Child(s, at, c), f);
    }
    DeepestTwice(Cells(q.k0), Cells(q.k1), d, d0, d1);
    DeepestTwice(Cells(q.k0) + Cells(q.k1), Cells(q.k2), d, d1, d2);
    DeepestTwice(Cells(q.k0) + Cells(q.k1) + Cells(q.k2), Cells(q.k3), d, d2, Depth(q.k3, d2));
    TileCountBounds(s, cfg, points, at);
    CellLaws(s, cfg, points, at, Cells(q)[0]);
    assert Cells(q)[0] in Cells(q);
  }
}
