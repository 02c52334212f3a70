/** The counters both planners keep while they record tiles. */
module PlanRecording {
  import opened TileIds
  import opened Quadtree

  /** The plan under construction, with the running verdict. */
  class PlanRecorder {
    var plan: PointBudgetPlan
    var budgetSatisfied: bool

    constructor (initial: PointBudgetPlan)
      ensures plan == initial && budgetSatisfied
    {
      plan, budgetSatisfied := initial, true;
    }

    ghost predicate Valid()
      reads this
    {
      Tallied(plan)
    }

    method RecordLeaf(count: nat, at: Place)
      requires Valid()
      modifies this
      ensures Valid()
      ensures plan.tiles == old(plan.tiles) + [PointBudgetTile(at.id, at.box, count)]
      ensures plan.depth == old(plan.depth) && plan.splitCount == old(plan.splitCount)
      ensures plan.pointCount == old(plan.pointCount)
      ensures plan.averagePointsPerTile == old(plan.averagePointsPerTile)
      ensures budgetSatisfied == old(budgetSatisfied)
    {
      ghost var before := plan.tiles;
      plan := plan.(tileCount := plan.tileCount + 1);
      if plan.minimumPointsPerTile == 0 {
        plan := plan.(minimumPointsPerTile := count);
      } else {
        plan := plan.(minimumPointsPerTile := Min(plan.minimumPointsPerTile, count));
      }
      plan := plan.(maximumPointsPerTile := Max(plan.maximumPointsPerTile, count));
      plan := plan.(tiles := plan.tiles + [PointBudgetTile(at.id, at.box, count)]);
      assert plan.tiles[..|plan.tiles| - 1] == before;
    }

    ghost function State(): Progress
      reads this
    {
      Progress(plan, budgetSatisfied)
    }
  }

  datatype Progress = Progress(plan: PointBudgetPlan, satisfied: bool)

  /** `now` is what recording the whole tree `q` on top of `was` amounts to. */
  ghost predicate Recorded(cfg: PointBudgetConfig, was: Progress, now: Progress, q: Quad)
  {
    && now.plan.tiles == was.plan.tiles + Tiles(q)
    && now.plan.splitCount == was.plan.splitCount + SplitCount(q)
    && now.plan.depth == Depth(q, was.plan.depth)
    && now.plan.pointCount == was.plan.pointCount
    && now.plan.averagePointsPerTile == was.plan.averagePointsPerTile
    && now.satisfied == (was.satisfied && WithinBudget(cfg, Tiles(q)))
  }

  /** `now` is what entering the split node `q` and recording its first `c` children amounts to. */
  ghost predicate RecordedKids(cfg: PointBudgetConfig, was: Progress, now: Progress, q: Quad, c: nat)
    requires q.Node? && c <= 4
  {
    && now.plan.tiles == was.plan.tiles + TilesBefore(q, c)
    && now.plan.splitCount == was.plan.splitCount + 1 + SplitsBefore(q, c)
    && now.plan.depth == DepthBefore(q, was.plan.depth, c)
    && now.plan.pointCount == was.plan.pointCount
    && now.plan.averagePointsPerTile == was.plan.averagePointsPerTile
    && now.satisfied == (was.satisfied && WithinBudget(cfg, TilesBefore(q, c)))
  }

  /** Recording one more child tree. */
  lemma RecordedNext(cfg: PointBudgetConfig, was: Progress, now: Progress, next: Progress, q: Quad, c: nat)
    requires q.Node? && c < 4
    requires RecordedKids(cfg, was, now, q, c)
    requires Recorded(cfg, now, next, Kid(q, c))
    ensures RecordedKids(cfg, was, next, q, c + 1)
  {
    var a, b, k := was.plan.tiles, TilesBefore(q, c), Tiles(Kid(q, c));
    assert TilesBefore(q, c + 1) == b + k;
    assert a + b + k == a + (b + k);
    assert WithinBudget(cfg, b + k) <==> WithinBudget(cfg, b) && WithinBudget(cfg, k) by {
      if WithinBudget(cfg, b + k) {
        assert forall t :: t in b || t in k ==> t in b + k;
      }
    }
  }

  /** Recording a leaf is adding its tile, and missing the budget when the tile is over it. */
  lemma RecordedLeaf(cfg: PointBudgetConfig, was: Progress, now: Progress, cell: Cell)
    requires now == Progress(now.plan, was.satisfied && |cell.points| <= cfg.maxPointsPerTile)
    requires now.plan.tiles == was.plan.tiles + [TileOf(cell)]
    requires now.plan.depth == Max(was.plan.depth, cell.at.id.level)
    requires now.plan.splitCount == was.plan.splitCount
    requires now.plan.pointCount == was.plan.pointCount
    requires now.plan.averagePointsPerTile == was.plan.averagePointsPerTile
    ensures Recorded(cfg, was, now, Leaf(cell))
  {
    assert Tiles(Leaf(cell)) == [TileOf(cell)];
  }

  /** A child without points records nothing. */
  lemma RecordedNothing(cfg: PointBudgetConfig, now: Progress)
    ensures Recorded(cfg, now, now, Empty)
  {
    assert now.plan.tiles + Tiles(Empty) == now.plan.tiles;
  }

  lemma RecordedAll(cfg: PointBudgetConfig, was: Progress, now: Progress, q: Quad)
    requires q.Node? && RecordedKids(cfg, was, now, q, 4)
    ensures Recorded(cfg, was, now, q)
  {
    AllTiles(q);
    AllSplits(q);
    AllDepths(q, was.plan.depth);
  }

  /** The counters agree with the tiles. */
  ghost predicate Tallied(plan: PointBudgetPlan)
  {
    && plan.tileCount == |plan.tiles|
    && plan.maximumPointsPerTile == Largest(plan.tiles)
    && plan.minimumPointsPerTile == Smallest(plan.tiles)
  }

  function WithAverage(plan: PointBudgetPlan): PointBudgetPlan
  {
    if plan.tileCount > 0 then plan.(averagePointsPerTile := Average(plan.pointCount, plan.tileCount)) else plan
  }

  /** A whole tree recorded on an empty plan is the plan for its points. */
  lemma RecordedFromStart(s: Split, cfg: PointBudgetConfig, points: seq<Position>, box: Box, now: Progress)
    requires Tallied(now.plan)
    requires Recorded(cfg, Progress(EMPTY_PLAN.(pointCount := |points|), true), now, Grow(s, cfg, points, Place(ROOT, box)))
    ensures WithAverage(now.plan) == PlanFor(s, cfg, points, box)
    ensures now.satisfied == WithinBudget(cfg, now.plan.tiles)
  {
    var tiles := Tiles(Grow(s, cfg, points, Place(ROOT, box)));
    assert [] + tiles == tiles;
  }

  ghost function TilesBefore(q: Quad, c: nat): seq<PointBudgetTile>
    requires q.Node? && c <= 4
  {
    if c == 0 then [] else TilesBefore(q, c - 1) + Tiles(Kid(q, c - 1))
  }

  ghost function SplitsBefore(q: Quad, c: nat): nat
    requires q.Node? && c <= 4
  {
    if c == 0 then 0 else SplitsBefore(q, c - 1) + SplitCount(Kid(q, c - 1))
  }

  ghost function DepthBefore(q: Quad, floor: int, c: nat): int
    requires q.Node? && c <= 4
  {
    if c == 0 then Max(floor, q.at.id.level) else Depth(Kid(q, c - 1), DepthBefore(q, floor, c - 1))
  }

  lemma TilesOfConcat(a: seq<Cell>, b: seq<Cell>)
    ensures TilesOf(a + b) == TilesOf(a) + TilesOf(b)
  {
  }

  lemma AllTiles(q: Quad)
    requires q.Node?
    ensures TilesBefore(q, 4) == Tiles(q)
  {
    var a, b, c, d := Cells(q.k0), Cells(q.k1), Cells(q.k2), Cells(q.k3);
    TilesOfConcat(a + b + c, d);
    TilesOfConcat(a + b, c);
    TilesOfConcat(a, b);
    hide TilesOf;
    assert TilesBefore(q, 1) == [] + Tiles(q.k0) == Tiles(q.k0);
    assert TilesBefore(q, 2) == TilesBefore(q, 1) + Tiles(q.k1);
    assert TilesBefore(q, 3) == TilesBefore(q, 2) + Tiles(q.k2);
  }

  lemma AllSplits(q: Quad)
    requires q.Node?
    ensures 1 + SplitsBefore(q, 4) == SplitCount(q)
  {
    assert SplitsBefore(q, 2) == SplitsBefore(q, 1) + SplitCount(q.k1);
    assert SplitsBefore(q, 3) == SplitsBefore(q, 2) + SplitCount(q.k2);
  }

  lemma AllDepths(q: Quad, floor: int)
    requires q.Node?
    ensures DepthBefore(q, floor, 4) == Depth(q, floor)
  {
    assert DepthBefore(q, floor, 1) == Depth(q.k0, Max(floor, q.at.id.level));
    assert DepthBefore(q, floor, 2) == Depth(q.k1, DepthBefore(q, floor, 1));
    assert DepthBefore(q, floor, 3) == Depth(q.k2, DepthBefore(q, floor, 2));
  }

  /** Decides from the children's counts whether a split is worthwhile. */
  method SplitIsWorthwhile(cfg: PointBudgetConfig, counts: seq<nat>) returns (r: bool)
    ensures r == Worthwhile(cfg, counts)
  {
    var nonEmptyChildren := 0;
    var childrenMeetMinimum := true;
    var k := 0;
    while k < |counts|
      invariant 0 <= k <= |counts|
      invariant nonEmptyChildren == NonEmpty(counts[..k])
      invariant childrenMeetMinimum ==
        forall j :: 0 <= j < k && counts[j] > 0 ==> counts[j] >= cfg.minPointsPerTile
    {
      if counts[k] != 0 {
        nonEmptyChildren := nonEmptyChildren + 1;
        childrenMeetMinimum := childrenMeetMinimum && counts[k] >= cfg.minPointsPerTile;
      }
      assert counts[..k + 1][..k] == counts[..k];
      k := k + 1;
    }
    assert counts[..k] == counts;
    r := nonEmptyChildren >= 2 && childrenMeetMinimum;
  }
}
