/** The adaptive quadtree: its geometry, the tree a budget grows and the plan the tree amounts to.

    The planners and the router never name this tree. It is the specification they are proved against. */
module Quadtree {
  import opened Seqs
  import opened TileIds

  /** How a box side is halved. Every deterministic rule that stays inside the side is covered,
      in particular the midpoint of two doubles, rounded or not. */
  type Split = f: (real, real) -> real | forall lo, hi :: lo <= hi ==> lo <= f(lo, hi) <= hi
    witness (lo: real, hi: real) => lo

  /** A horizontal position; `finite` is false when the source's x or y is an infinity or a NaN,
      and then `x` and `y` mean nothing. */
  datatype Position = Position(x: real, y: real, finite: bool)

  datatype Box = Box(minX: real, maxX: real, minY: real, maxY: real) {
    predicate IsValid() { minX <= maxX && minY <= maxY }

    predicate Contains(p: Position) { minX <= p.x <= maxX && minY <= p.y <= maxY }

    predicate Inside(outer: Box)
    {
      outer.minX <= minX && maxX <= outer.maxX && outer.minY <= minY && maxY <= outer.maxY
    }
  }

  const MAX_DEPTH := 31

  /** The largest value of the source's size type. */
  const SIZE_MAX: nat := 0xFFFF_FFFF_FFFF_FFFF

  datatype PointBudgetConfig = PointBudgetConfig(maxPointsPerTile: nat, minPointsPerTile: nat, maxDepth: int) {
    predicate IsValid()
    {
      maxPointsPerTile > 0 && minPointsPerTile <= maxPointsPerTile && 0 <= maxDepth <= MAX_DEPTH
    }
  }

  datatype PointBudgetTile = PointBudgetTile(id: TileId, box: Box, pointCount: nat) {
    predicate IsValid() { id.IsValid() && box.IsValid() && pointCount > 0 }
  }

  datatype PointBudgetPlan = PointBudgetPlan(
    tileCount: nat,
    maximumPointsPerTile: nat,
    depth: int,
    pointCount: nat,
    minimumPointsPerTile: nat,
    averagePointsPerTile: real,
    splitCount: nat,
    tiles: seq<PointBudgetTile>)

  const EMPTY_PLAN := PointBudgetPlan(0, 0, 0, 0, 0, 0.0, 0, [])

  // ----- Geometry

  /** A tile together with the box it covers. */
  datatype Place = Place(id: TileId, box: Box)

  /** Which of the four children of `box` holds `p`: bit 0 is the upper half in x, bit 1 in y. */
  function Quadrant(s: Split, box: Box, p: Position): (c: nat)
    ensures c < 4
  {
    (if p.x >= s(box.minX, box.maxX) then 1 else 0) + (if p.y >= s(box.minY, box.maxY) then 2 else 0)
  }

  function ChildId(id: TileId, c: nat): TileId
    requires c < 4
  {
    TileId(id.level + 1, id.x * 2 + c % 2, id.y * 2 + c / 2, 0)
  }

  function ChildBox(s: Split, box: Box, c: nat): Box
    requires c < 4
  {
    var splitX := s(box.minX, box.maxX);
    var splitY := s(box.minY, box.maxY);
    Box(if c % 2 == 1 then splitX else box.minX, if c % 2 == 1 then box.maxX else splitX,
        if c / 2 == 1 then splitY else box.minY, if c / 2 == 1 then box.maxY else splitY)
  }

  function Child(s: Split, at: Place, c: nat): Place
    requires c < 4
  {
    Place(ChildId(at.id, c), ChildBox(s, at.box, c))
  }

  function Step(s: Split, at: Place, p: Position): Place
  {
    Child(s, at, Quadrant(s, at.box, p))
  }

  /** The place that `n` halvings lead `p` to, starting from `at`. */
  function Descend(s: Split, at: Place, p: Position, n: nat): (r: Place)
    ensures r.id.level == at.id.level + n
    decreases n
  {
    if n == 0 then at else Descend(s, Step(s, at, p), p, n - 1)
  }

  /** `p`, halving on from `from`, passes through `to`. */
  predicate Reaches(s: Split, from: Place, p: Position, to: Place)
  {
    from.id.level <= to.id.level && Descend(s, from, p, to.id.level - from.id.level) == to
  }

  lemma {:induction false} DescendLast(s: Split, at: Place, p: Position, n: nat)
    ensures Descend(s, at, p, n + 1) == Step(s, Descend(s, at, p, n), p)
    decreases n
  {
    if n > 0 {
      DescendLast(s, Step(s, at, p), p, n - 1);
    }
  }

  lemma {:induction false} DescendFurther(s: Split, at: Place, p: Position, m: nat, n: nat)
    ensures Descend(s, at, p, m + n) == Descend(s, Descend(s, at, p, m), p, n)
    decreases m
  {
    if m > 0 {
      DescendFurther(s, Step(s, at, p), p, m - 1, n);
    }
  }

  lemma ParentOfChild(id: TileId, c: nat)
    requires Planar(id) && c < 4
    ensures Planar(ChildId(id, c)) && Parent(ChildId(id, c)) == id
  {
  }

  lemma ChildIdsDiffer(id: TileId, a: nat, b: nat)
    requires a < 4 && b < 4 && ChildId(id, a) == ChildId(id, b)
    ensures a == b
  {
  }

  /** Going down and back up returns to the start. */
  lemma {:induction false} UpAfterDescend(s: Split, at: Place, p: Position, n: nat)
    requires Planar(at.id)
    ensures var d := Descend(s, at, p, n).id; Planar(d) && Up(d, n) == at.id
    decreases n
  {
    if n > 0 {
      var c := Quadrant(s, at.box, p);
      ParentOfChild(at.id, c);
      UpAfterDescend(s, Child(s, at, c), p, n - 1);
      UpUp(Descend(s, at, p, n).id, n - 1, 1);
    }
  }

  /** The identity alone determines the place: points that reach one tile agree on its box. */
  lemma {:induction false} IdDeterminesPlace(s: Split, at: Place, p: Position, q: Position, n: nat)
    requires Planar(at.id)
    requires Descend(s, at, p, n).id == Descend(s, at, q, n).id
    ensures Descend(s, at, p, n) == Descend(s, at, q, n)
    decreases n
  {
    if n > 0 {
      DescendLast(s, at, p, n - 1);
      DescendLast(s, at, q, n - 1);
      UpAfterDescend(s, at, p, n - 1);
      UpAfterDescend(s, at, q, n - 1);
      var a, b := Descend(s, at, p, n - 1), Descend(s, at, q, n - 1);
      ParentOfChild(a.id, Quadrant(s, a.box, p));
      ParentOfChild(b.id, Quadrant(s, b.box, q));
      IdDeterminesPlace(s, at, p, q, n - 1);
      ChildIdsDiffer(a.id, Quadrant(s, a.box, p), Quadrant(s, b.box, q));
    }
  }

  lemma ChildContains(s: Split, box: Box, p: Position)
    requires box.IsValid() && box.Contains(p)
    ensures var b := ChildBox(s, box, Quadrant(s, box, p));
      b.IsValid() && b.Contains(p) && b.Inside(box)
  {
    assert box.minX <= s(box.minX, box.maxX) <= box.maxX;
    assert box.minY <= s(box.minY, box.maxY) <= box.maxY;
  }

  // ----- The tree a budget grows

  /** A tile of the plan together with the points it counts. */
  datatype Cell = Cell(at: Place, points: seq<Position>)

  datatype Quad =
    | Empty
    | Leaf(cell: Cell)
    | Node(at: Place, k0: Quad, k1: Quad, k2: Quad, k3: Quad)

  function Kid(q: Quad, c: nat): Quad
    requires q.Node? && c < 4
  {
    if c == 0 then q.k0 else if c == 1 then q.k1 else if c == 2 then q.k2 else q.k3
  }

  function Part(s: Split, box: Box, points: seq<Position>, c: nat): seq<Position>
  {
    Filter((p: Position) => Quadrant(s, box, p) == c, points)
  }

  function PartCounts(s: Split, box: Box, points: seq<Position>): (r: seq<nat>)
    ensures |r| == 4
  {
    [|Part(s, box, points, 0)|, |Part(s, box, points, 1)|, |Part(s, box, points, 2)|, |Part(s, box, points, 3)|]
  }

  predicate CanSplit(cfg: PointBudgetConfig, count: nat, level: int, box: Box)
  {
    count > cfg.maxPointsPerTile && level < cfg.maxDepth && box.minX != box.maxX && box.minY != box.maxY
  }

  function NonEmpty(counts: seq<nat>): nat
  {
    if counts == [] then 0
    else NonEmpty(counts[..|counts| - 1]) + (if counts[|counts| - 1] > 0 then 1 else 0)
  }

  /** At least two children get points, and no child that gets points gets too few. */
  predicate Worthwhile(cfg: PointBudgetConfig, counts: seq<nat>)
  {
    NonEmpty(counts) >= 2 && forall k :: 0 <= k < |counts| && counts[k] > 0 ==> counts[k] >= cfg.minPointsPerTile
  }

  predicate Splits(s: Split, cfg: PointBudgetConfig, points: seq<Position>, at: Place)
  {
    CanSplit(cfg, |points|, at.id.level, at.box) && Worthwhile(cfg, PartCounts(s, at.box, points))
  }

  function Grow(s: Split, cfg: PointBudgetConfig, points: seq<Position>, at: Place): Quad
    decreases cfg.maxDepth - at.id.level, 1
  {
    if points == [] then Empty
    else if !Splits(s, cfg, points, at) then Leaf(Cell(at, points))
    else Node(at, GrownKid(s, cfg, points, at, 0), GrownKid(s, cfg, points, at, 1),
                  GrownKid(s, cfg, points, at, 2), GrownKid(s, cfg, points, at, 3))
  }

  function GrownKid(s: Split, cfg: PointBudgetConfig, points: seq<Position>, at: Place, c: nat): Quad
    requires c < 4 && at.id.level < cfg.maxDepth
    decreases cfg.maxDepth - at.id.level, 0
  {
    Grow(s, cfg, Part(s, at.box, points, c), Child(s, at, c))
  }

  lemma KidIsGrown(s: Split, cfg: PointBudgetConfig, points: seq<Position>, at: Place, c: nat)
    requires c < 4 && points != [] && Splits(s, cfg, points, at)
    ensures at.id.level < cfg.maxDepth
    ensures var q, kid := Grow(s, cfg, points, at), Grow(s, cfg, Part(s, at.box, points, c), Child(s, at, c));
      q.Node? && q.at == at && Kid(q, c) == GrownKid(s, cfg, points, at, c) == kid
  {
  }

  function Cells(q: Quad): seq<Cell>
  {
    match q
    case Empty => []
    case Leaf(cell) => [cell]
    case Node(_, k0, k1, k2, k3) => Cells(k0) + Cells(k1) + Cells(k2) + Cells(k3)
  }

  function TileOf(cell: Cell): PointBudgetTile
  {
    PointBudgetTile(cell.at.id, cell.at.box, |cell.points|)
  }

  function TilesOf(cells: seq<Cell>): (r: seq<PointBudgetTile>)
    ensures |r| == |cells| && forall i :: 0 <= i < |r| ==> r[i] == TileOf(cells[i])
  {
    seq(|cells|, i requires 0 <= i < |cells| => TileOf(cells[i]))
  }

  function Tiles(q: Quad): seq<PointBudgetTile>
  {
    TilesOf(Cells(q))
  }

  function SplitCount(q: Quad): nat
  {
    if q.Node? then 1 + SplitCount(q.k0) + SplitCount(q.k1) + SplitCount(q.k2) + SplitCount(q.k3) else 0
  }

  function Max(a: int, b: int): int { if a < b then b else a }

  function Min(a: int, b: int): int { if a < b then a else b }

  /** The deepest level of any node, or `floor` when the tree does not reach it. */
  function Depth(q: Quad, floor: int): int
  {
    match q
    case Empty => floor
    case Leaf(cell) => Max(floor, cell.at.id.level)
    case Node(at, k0, k1, k2, k3) => Depth(k3, Depth(k2, Depth(k1, Depth(k0, Max(floor, at.id.level)))))
  }

  function Counts(tiles: seq<PointBudgetTile>): (r: seq<nat>)
    ensures |r| == |tiles|
  {
    seq(|tiles|, i requires 0 <= i < |tiles| => tiles[i].pointCount)
  }

  function Largest(tiles: seq<PointBudgetTile>): nat
  {
    if tiles == [] then 0 else Max(Largest(tiles[..|tiles| - 1]), tiles[|tiles| - 1].pointCount)
  }

  /** The smallest count, or zero when there is no tile. */
  function Smallest(tiles: seq<PointBudgetTile>): nat
  {
    if tiles == [] then 0
    else if Smallest(tiles[..|tiles| - 1]) == 0 then tiles[|tiles| - 1].pointCount
    else Min(Smallest(tiles[..|tiles| - 1]), tiles[|tiles| - 1].pointCount)
  }

  predicate WithinBudget(cfg: PointBudgetConfig, tiles: seq<PointBudgetTile>)
  {
    forall t :: t in tiles ==> t.pointCount <= cfg.maxPointsPerTile
  }

  function Expand(box: Box, p: Position): Box
  {
    Box(if p.x < box.minX then p.x else box.minX, if box.maxX < p.x then p.x else box.maxX,
        if p.y < box.minY then p.y else box.minY, if box.maxY < p.y then p.y else box.maxY)
  }

  function PointBox(p: Position): Box
  {
    Box(p.x, p.x, p.y, p.y)
  }

  /** The smallest box around `points`. */
  function Hull(points: seq<Position>): (box: Box)
    requires points != []
  {
    var p := points[|points| - 1];
    if |points| == 1 then PointBox(p) else Expand(Hull(points[..|points| - 1]), p)
  }

  /** The hull contains every point, and each of its sides touches one. */
  lemma {:induction false} HullLaws(points: seq<Position>) returns (west: Position, east: Position, south: Position, north: Position)
    requires points != []
    ensures Hull(points).IsValid()
    ensures forall p :: p in points ==> Hull(points).Contains(p)
    ensures west in points && east in points && south in points && north in points
    ensures west.x == Hull(points).minX && east.x == Hull(points).maxX
    ensures south.y == Hull(points).minY && north.y == Hull(points).maxY
  {
    var p := points[|points| - 1];
    if |points| == 1 {
      west, east, south, north := p, p, p, p;
    } else {
      var rest := points[..|points| - 1];
      west, east, south, north := HullLaws(rest);
      assert forall q :: q in points ==> q in rest || q == p;
      var box := Hull(rest);
      west := if p.x < box.minX then p else west;
      east := if box.maxX < p.x then p else east;
      south := if p.y < box.minY then p else south;
      north := if box.maxY < p.y then p else north;
    }
  }

  lemma HullNext(points: seq<Position>, p: Position)
    ensures Hull(points + [p]) == if points == [] then PointBox(p) else Expand(Hull(points), p)
  {
    assert (points + [p])[..|points|] == points;
  }

  function Average(total: nat, count: nat): real
  {
    if count == 0 then 0.0 else total as real / count as real
  }

  /** The plan for `points`, grown from their hull, where `box` and `points` may come from two passes. */
  function PlanFor(s: Split, cfg: PointBudgetConfig, points: seq<Position>, box: Box): PointBudgetPlan
  {
    var q := Grow(s, cfg, points, Place(ROOT, box));
    var tiles := Tiles(q);
    PointBudgetPlan(|tiles|, Largest(tiles), Depth(q, 0), |points|, Smallest(tiles),
                    Average(|points|, |tiles|),
                    SplitCount(q), tiles)
  }

  predicate AllFinite(points: seq<Position>)
  {
    forall p :: p in points ==> p.finite
  }
}
