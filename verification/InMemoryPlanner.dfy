/** The planner that partitions an in-memory point list. */
module InMemoryPlanner {
  import opened Seqs
  import opened TileIds
  import opened Quadtree
  import opened PlanRecording

  predicate InRange(indices: seq<nat>, source: seq<Position>)
  {
    forall k :: 0 <= k < |indices| ==> indices[k] < |source|
  }

  /** The positions that a list of indices names. */
  function At(source: seq<Position>, indices: seq<nat>): (r: seq<Position>)
    requires InRange(indices, source)
    ensures |r| == |indices| && forall k :: 0 <= k < |r| ==> r[k] == source[indices[k]]
  {
    seq(|indices|, k requires 0 <= k < |indices| => source[indices[k]])
  }

  /** Sorts the indices of one node into its four children. */
  method Partition(s: Split, source: seq<Position>, indices: seq<nat>, box: Box) returns (children: seq<seq<nat>>)
    requires InRange(indices, source)
    ensures |children| == 4
    ensures forall c :: 0 <= c < 4 ==> InRange(children[c], source)
    ensures forall c :: 0 <= c < 4 ==> At(source, children[c]) == Part(s, box, At(source, indices), c)
  {
    children := [[], [], [], []];
    var k := 0;
    ghost var points := At(source, indices);
    while k < |indices|
      invariant 0 <= k <= |indices| && |children| == 4
      invariant forall c :: 0 <= c < 4 ==> InRange(children[c], source)
      invariant forall c :: 0 <= c < 4 ==> At(source, children[c]) == Part(s, box, points[..k], c)
    {
      var index := indices[k];
      var child := Quadrant(s, box, source[index]);
      ghost var was := children;
      children := children[child := children[child] + [index]];
      forall c | 0 <= c < 4 ensures At(source, children[c]) == Part(s, box, points[..k + 1], c) {
        assert points[..k + 1] == points[..k] + [points[k]];
        FilterAppend((p: Position) => Quadrant(s, box, p) == c, points[..k], points[k]);
        assert At(source, was[child] + [index]) == At(source, was[child]) + [source[index]];
      }
      k := k + 1;
    }
    assert points[..k] == points;
  }

  method Visit(s: Split, cfg: PointBudgetConfig, source: seq<Position>, indices: seq<nat>, at: Place, r: PlanRecorder)
    requires indices != [] && InRange(indices, source)
    requires r.Valid()
    modifies r
    ensures r.Valid() && Recorded(cfg, old(r.State()), r.State(), Grow(s, cfg, At(source, indices), at))
    decreases cfg.maxDepth - at.id.level, 1
  {
    hide Recorded, Smallest, Largest;
    ghost var points := At(source, indices);
    ghost var q := Grow(s, cfg, points, at);
    r.plan := r.plan.(depth := Max(r.plan.depth, at.id.level));
    if !CanSplit(cfg, |indices|, at.id.level, at.box) {
      r.RecordLeaf(|indices|, at);
      if |indices| > cfg.maxPointsPerTile {
        r.budgetSatisfied := false;
      }
      RecordedLeaf(cfg, old(r.State()), r.State(), Cell(at, points));
      return;
    }
    var children := Partition(s, source, indices, at.box);
    var counts := [|children[0]|, |children[1]|, |children[2]|, |children[3]|];
    assert counts == PartCounts(s, at.box, points) by {
      forall c | 0 <= c < 4 ensures |children[c]| == |Part(s, at.box, points, c)| {
        assert |At(source, children[c])| == |children[c]|;
      }
    }
    var worthwhile := SplitIsWorthwhile(cfg, counts);
    if !worthwhile {
      r.RecordLeaf(|indices|, at);
      r.budgetSatisfied := false;
      RecordedLeaf(cfg, old(r.State()), r.State(), Cell(at, points));
      return;
    }
    r.plan := r.plan.(splitCount := r.plan.splitCount + 1);
    forall c: nat | c < 4 ensures Kid(q, c) == Grow(s, cfg, At(source, children[c]), Child(s, at, c)) {
      KidIsGrown(s, cfg, points, at, c);
    }
    VisitChildren(s, cfg, source, children, at, r, q, old(r.State()));
  }

  /** The loop over the children of a split node. */
  method VisitChildren(s: Split, cfg: PointBudgetConfig, source: seq<Position>, children: seq<seq<nat>>, at: Place,
                       r: PlanRecorder, ghost q: Quad, ghost was: Progress)
    requires |children| == 4 && forall c :: 0 <= c < 4 ==> InRange(children[c], source)
    requires q.Node? && at.id.level < cfg.maxDepth
    requires forall c: nat :: c < 4 ==> Kid(q, c) == Grow(s, cfg, At(source, children[c]), Child(s, at, c))
    requires r.Valid() && RecordedKids(cfg, was, r.State(), q, 0)
    modifies r
    ensures r.Valid() && Recorded(cfg, was, r.State(), q)
    decreases cfg.maxDepth - at.id.level, 0
  {
    var c := 0;
    while c < 4
      invariant 0 <= c <= 4
      invariant r.Valid() && RecordedKids(cfg, was, r.State(), q, c)
    {
      ghost var before := r.State();
      assert Kid(q, c) == Grow(s, cfg, At(source, children[c]), Child(s, at, c));
      if |children[c]| != 0 {
        Visit(s, cfg, source, children[c], Child(s, at, c), r);
      } else {
        RecordedNothing(cfg, before);
      }
      RecordedNext(cfg, was, before, r.State(), q, c);
      c := c + 1;
    }
    RecordedAll(cfg, was, r.State(), q);
  }

  /** The smallest box around the source. */
  method MakeBounds(source: seq<Position>) returns (box: Box)
    requires source != []
    ensures box == Hull(source)
  {
    box := PointBox(source[0]);
    var k := 1;
    assert source[..1] == [source[0]];
    while k < |source|
      invariant 1 <= k <= |source| && box == Hull(source[..k])
    {
      box := Expand(box, source[k]);
      assert source[..k + 1][..k] == source[..k];
      k := k + 1;
    }
    assert source[..k] == source;
  }

  /** What planning a point list in memory comes to: the plan left behind, and the verdict. */
  ghost function InMemoryOutcome(s: Split, cfg: PointBudgetConfig, source: seq<Position>): (PointBudgetPlan, bool)
  {
    if !cfg.IsValid() then (EMPTY_PLAN, false)
    else if source == [] then (EMPTY_PLAN, true)
    else if !AllFinite(source) then (EMPTY_PLAN.(pointCount := |source|), false)
    else
      var plan := PlanFor(s, cfg, source, Hull(source));
      (plan, WithinBudget(cfg, plan.tiles))
  }

  method BuildPointBudgetPlan(s: Split, source: seq<Position>, cfg: PointBudgetConfig)
    returns (plan: PointBudgetPlan, satisfied: bool)
    ensures (plan, satisfied) == InMemoryOutcome(s, cfg, source)
  {
    plan := EMPTY_PLAN;
    if !cfg.IsValid() { return plan, false; }
    if |source| == 0 { return plan, true; }
    plan := plan.(pointCount := |source|);
    var k := 0;
    while k < |source|
      invariant 0 <= k <= |source| && forall j :: 0 <= j < k ==> source[j].finite
    {
      if !source[k].finite {
        assert source[k] in source;
        return plan, false;
      }
      k := k + 1;
    }
    var indices: seq<nat> := seq(|source|, i => i);
    assert At(source, indices) == source;
    var box := MakeBounds(source);
    var r := new PlanRecorder(plan);
    Visit(s, cfg, source, indices, Place(ROOT, box), r);
    plan := WithAverage(r.plan);
    satisfied := r.budgetSatisfied;
    RecordedFromStart(s, cfg, source, box, r.State());
  }
}
