/** The tile plan of a COPC hierarchy: which nodes it takes, and how it counts their points from the leaves up. */
module CopcPlan {
  import opened Seqs
  import opened TileIds
  import opened TilePlan
  import opened CopcHierarchy

  predicate IsData(n: CopcNode) { n.kind.PointData? }

  predicate DataUnder(n: CopcNode, id: TileId) { IsData(n) && Above(id, n.tile) && n.tile != id }

  /** A plan needs `id` when it is a data node or the ancestor of one, from level zero down. */
  predicate Required(nodes: seq<CopcNode>, id: TileId)
  {
    id.level >= 0 && exists k :: 0 <= k < |nodes| && IsData(nodes[k]) && Above(id, nodes[k].tile)
  }

  predicate HasTile(nodes: seq<CopcNode>, id: TileId)
  {
    exists k :: 0 <= k < |nodes| && nodes[k].tile == id
  }

  /** Every ancestor of a data node is a node. */
  ghost predicate AncestorsPresent(nodes: seq<CopcNode>)
  {
    forall id :: Required(nodes, id) ==> HasTile(nodes, id)
  }

  function Points(n: CopcNode): nat { if IsData(n) then n.kind.pointCount else 0 }

  /** The points of the data nodes at or below `id`. */
  function PointsBelow(nodes: seq<CopcNode>, id: TileId): nat
  {
    if nodes == [] then 0
    else
      var n := nodes[|nodes| - 1];
      PointsBelow(nodes[..|nodes| - 1], id) + if IsData(n) && Above(id, n.tile) then Points(n) else 0
  }

  /** The points stored in the node `id` itself. */
  function OwnPoints(nodes: seq<CopcNode>, id: TileId): nat
  {
    if nodes == [] then 0
    else
      var n := nodes[|nodes| - 1];
      OwnPoints(nodes[..|nodes| - 1], id) + if n.tile == id then Points(n) else 0
  }

  function AllPoints(nodes: seq<CopcNode>): nat
  {
    if nodes == [] then 0 else AllPoints(nodes[..|nodes| - 1]) + Points(nodes[|nodes| - 1])
  }

  function PointsBelowAll(nodes: seq<CopcNode>, ids: seq<TileId>): nat
  {
    if ids == [] then 0 else PointsBelowAll(nodes, ids[..|ids| - 1]) + PointsBelow(nodes, ids[|ids| - 1])
  }

  /** The required nodes whose parent is `id`, in the hierarchy's order. */
  function RequiredChildren(nodes: seq<CopcNode>, among: seq<CopcNode>, id: TileId): seq<TileId>
  {
    if among == [] then []
    else
      var t := among[|among| - 1].tile;
      RequiredChildren(nodes, among[..|among| - 1], id) +
      if t.level == id.level + 1 && Parent(t) == id && Required(nodes, t) then [t] else []
  }

  lemma {:induction false} RequiredChildrenMember(nodes: seq<CopcNode>, among: seq<CopcNode>, id: TileId, t: TileId)
    ensures t in RequiredChildren(nodes, among, id)
      <==> HasTile(among, t) && t.level == id.level + 1 && Parent(t) == id && Required(nodes, t)
  {
    if among != [] {
      var m := |among| - 1;
      RequiredChildrenMember(nodes, among[..m], id, t);
      if k :| 0 <= k < |among| && among[k].tile == t {
        assert k < m ==> among[..m][k].tile == t;
      }
    }
  }

  lemma {:induction false} RequiredChildrenDistinct(nodes: seq<CopcNode>, among: seq<CopcNode>, id: TileId)
    requires DistinctTiles(among)
    ensures Distinct(RequiredChildren(nodes, among, id))
  {
    if among != [] {
      var m := |among| - 1;
      RequiredChildrenDistinct(nodes, among[..m], id);
      RequiredChildrenMember(nodes, among[..m], id, among[m].tile);
    }
  }

  // ----- Counting from the leaves up

  /** One more data node adds to at most one of several siblings. */
  lemma {:induction false} PointsBelowAllNext(nodes: seq<CopcNode>, n: CopcNode, ids: seq<TileId>)
    requires Distinct(ids) && IsData(n)
    requires forall a, b :: a in ids && b in ids && Above(a, n.tile) && Above(b, n.tile) ==> a == b
    ensures PointsBelowAll(nodes + [n], ids)
         == PointsBelowAll(nodes, ids) + if exists a :: a in ids && Above(a, n.tile) then Points(n) else 0
  {
    if ids != [] {
      var m := |ids| - 1;
      assert ids == ids[..m] + [ids[m]];
      PointsBelowAllNext(nodes, n, ids[..m]);
      assert (nodes + [n])[..|nodes|] == nodes;
      if Above(ids[m], n.tile) {
        forall a | a in ids[..m] ensures !Above(a, n.tile) {
          var i :| 0 <= i < m && ids[i] == a;
          assert ids[i] != ids[m];
        }
      }
    }
  }

  lemma {:induction false} PointsBelowAllSame(nodes: seq<CopcNode>, n: CopcNode, ids: seq<TileId>)
    requires !IsData(n)
    ensures PointsBelowAll(nodes + [n], ids) == PointsBelowAll(nodes, ids)
  {
    if ids != [] {
      PointsBelowAllSame(nodes, n, ids[..|ids| - 1]);
      assert (nodes + [n])[..|nodes|] == nodes;
    }
  }

  lemma TowardTile(id: TileId, d: TileId) returns (c: TileId)
    requires Above(id, d) && id.level < d.level
    ensures c == Up(d, d.level - id.level - 1) && c.level == id.level + 1 && Parent(c) == id && Above(c, d)
  {
    c := Up(d, d.level - id.level - 1);
    UpUp(d, d.level - id.level - 1, 1);
    assert Up(c, 1) == Parent(c);
  }

  lemma ChildAbove(id: TileId, c: TileId, d: TileId)
    requires Above(c, d) && Parent(c) == id
    ensures Above(id, d) && id.level < d.level && c == Up(d, d.level - id.level - 1)
  {
    UpUp(d, d.level - c.level, 1);
    assert Up(c, 1) == Parent(c);
  }

  /** A node's points below are its own and those below its children, for any list of distinct children that
      covers the data nodes. */
  lemma {:induction false} PointsBelowByChildren(nodes: seq<CopcNode>, id: TileId, children: seq<TileId>)
    requires Distinct(children) && forall c :: c in children ==> Parent(c) == id
    requires forall k :: 0 <= k < |nodes| && DataUnder(nodes[k], id) ==> exists c :: c in children && Above(c, nodes[k].tile)
    ensures PointsBelow(nodes, id) == OwnPoints(nodes, id) + PointsBelowAll(nodes, children)
  {
    hide Up;
    if nodes == [] {
      NothingBelow(children);
    } else {
      var m := |nodes| - 1;
      var n := nodes[m];
      forall k | 0 <= k < m && DataUnder(nodes[..m][k], id)
        ensures exists c :: c in children && Above(c, nodes[..m][k].tile)
      {
        assert nodes[k] == nodes[..m][k];
      }
      PointsBelowByChildren(nodes[..m], id, children);
      assert nodes == nodes[..m] + [n];
      if IsData(n) {
        forall a | a in children && Above(a, n.tile)
          ensures Above(id, n.tile) && n.tile != id && a == Up(n.tile, n.tile.level - id.level - 1)
        {
          ChildAbove(id, a, n.tile);
        }
        PointsBelowAllNext(nodes[..m], n, children);
        SelfAbove(id);
      } else {
        PointsBelowAllSame(nodes[..m], n, children);
      }
    }
  }

  lemma SelfAbove(id: TileId)
    ensures Above(id, id)
  {
  }

  lemma {:induction false} NothingBelow(ids: seq<TileId>)
    ensures PointsBelowAll([], ids) == 0
  {
    if ids != [] {
      NothingBelow(ids[..|ids| - 1]);
    }
  }

  /** With all ancestors present, the required children in the hierarchy account for everything below. */
  lemma RequiredChildrenCover(nodes: seq<CopcNode>, id: TileId)
    requires AncestorsPresent(nodes) && DistinctTiles(nodes) && id.level >= 0
    ensures PointsBelow(nodes, id) == OwnPoints(nodes, id) + PointsBelowAll(nodes, RequiredChildren(nodes, nodes, id))
  {
    hide Up;
    var children := RequiredChildren(nodes, nodes, id);
    RequiredChildrenDistinct(nodes, nodes, id);
    forall c | c in children ensures Parent(c) == id {
      RequiredChildrenMember(nodes, nodes, id, c);
    }
    forall k | 0 <= k < |nodes| && DataUnder(nodes[k], id)
      ensures exists c :: c in children && Above(c, nodes[k].tile)
    {
      AboveStrict(id, nodes[k].tile);
      var c := TowardTile(id, nodes[k].tile);
      assert Required(nodes, c);
      RequiredChildrenMember(nodes, nodes, id, c);
    }
    PointsBelowByChildren(nodes, id, children);
  }

  lemma AboveStrict(a: TileId, b: TileId)
    requires Above(a, b) && a != b
    ensures a.level < b.level
  {
  }

  lemma {:induction false} BelowAtMostAll(nodes: seq<CopcNode>, id: TileId)
    ensures PointsBelow(nodes, id) <= AllPoints(nodes)
  {
    if nodes != [] {
      BelowAtMostAll(nodes[..|nodes| - 1], id);
    }
  }

  lemma {:induction false} AllBelowRoot(nodes: seq<CopcNode>, id: TileId)
    requires forall k :: 0 <= k < |nodes| && IsData(nodes[k]) ==> Above(id, nodes[k].tile)
    ensures PointsBelow(nodes, id) == AllPoints(nodes)
  {
    if nodes != [] {
      var m := |nodes| - 1;
      assert forall k :: 0 <= k < m ==> nodes[..m][k] == nodes[k];
      AllBelowRoot(nodes[..m], id);
    }
  }

  lemma {:induction false} BelowIsPositive(nodes: seq<CopcNode>, id: TileId)
    requires Required(nodes, id) && forall n :: n in nodes ==> n.IsValid()
    ensures PointsBelow(nodes, id) > 0
  {
    var m := |nodes| - 1;
    var k :| 0 <= k < |nodes| && IsData(nodes[k]) && Above(id, nodes[k].tile);
    assert nodes[k] in nodes;
    if k < m {
      assert nodes[..m][k] == nodes[k];
      assert Required(nodes[..m], id);
      assert forall n :: n in nodes[..m] ==> n in nodes;
      BelowIsPositive(nodes[..m], id);
    }
  }

  lemma {:induction false} OwnPointsOfNode(nodes: seq<CopcNode>, k: nat)
    requires DistinctTiles(nodes) && k < |nodes|
    ensures OwnPoints(nodes, nodes[k].tile) == Points(nodes[k])
  {
    var m := |nodes| - 1;
    if k < m {
      OwnPointsOfNode(nodes[..m], k);
    } else {
      NoOwnPoints(nodes[..m], nodes[k].tile);
    }
  }

  lemma {:induction false} NoOwnPoints(nodes: seq<CopcNode>, id: TileId)
    requires !HasTile(nodes, id)
    ensures OwnPoints(nodes, id) == 0
  {
    if nodes != [] {
      var m := |nodes| - 1;
      assert nodes[m].tile != id;
      forall k | 0 <= k < m ensures nodes[..m][k].tile != id {
        assert nodes[k].tile != id;
      }
      NoOwnPoints(nodes[..m], id);
    }
  }

  // ----- Which nodes are required

  /** Marks the node and its ancestors; stops at the first ancestor that is no node. */
  method MarkPath(nodes: seq<CopcNode>, indices: map<TileId, nat>, marked: seq<bool>, tile: TileId)
    returns (ok: bool, required: seq<bool>)
    requires tile.level >= 0 && |marked| == |nodes| && DistinctTiles(nodes)
    requires forall id :: id in indices <==> HasTile(nodes, id)
    requires forall id :: id in indices ==> indices[id] < |nodes| && nodes[indices[id]].tile == id
    ensures ok <==> forall id: TileId :: id.level >= 0 && Above(id, tile) ==> HasTile(nodes, id)
    ensures ok ==> |required| == |nodes|
    ensures ok ==> forall k :: 0 <= k < |nodes| ==>
      (required[k] <==> marked[k] || (nodes[k].tile.level >= 0 && Above(nodes[k].tile, tile)))
  {
    hide Up, HasTile;
    required := marked;
    var current := tile;
    SelfAbove(tile);
    while true
      invariant 0 <= current.level <= tile.level && Above(current, tile) && |required| == |nodes|
      invariant forall id: TileId :: id.level > current.level && Above(id, tile) ==> HasTile(nodes, id)
      invariant forall k :: 0 <= k < |nodes| ==>
        (required[k] <==> marked[k] || (nodes[k].tile.level > current.level && Above(nodes[k].tile, tile)))
      decreases current.level
    {
      forall id | Above(id, tile) && id.level == current.level ensures id == current {
        SameLevelSame(id, current, tile);
      }
      if current !in indices {
        return false, required;
      }
      required := required[indices[current] := true];
      forall k | 0 <= k < |nodes| ensures nodes[k].tile == current <==> k == indices[current] {
        DistinctIndex(nodes, k, indices[current]);
      }
      if current.level == 0 {
        return true, required;
      }
      ParentAbove(current, tile);
      current := Parent(current);
    }
  }

  lemma DistinctIndex(nodes: seq<CopcNode>, i: nat, j: nat)
    requires DistinctTiles(nodes) && i < |nodes| && j < |nodes|
    ensures nodes[i].tile == nodes[j].tile <==> i == j
  {
  }

  lemma SameLevelSame(a: TileId, b: TileId, d: TileId)
    requires Above(a, d) && Above(b, d) && a.level == b.level
    ensures a == b
  {
  }

  lemma ParentAbove(a: TileId, d: TileId)
    requires Above(a, d)
    ensures Above(Parent(a), d)
  {
    UpUp(d, d.level - a.level, 1);
    assert Up(a, 1) == Parent(a);
  }

  lemma RequiredNext(nodes: seq<CopcNode>, k: nat, id: TileId)
    requires k < |nodes|
    ensures Required(nodes[..k + 1], id)
      <==> Required(nodes[..k], id) || (id.level >= 0 && IsData(nodes[k]) && Above(id, nodes[k].tile))
  {
    var a, b := nodes[..k], nodes[..k + 1];
    if Required(a, id) {
      var j :| 0 <= j < |a| && IsData(a[j]) && Above(id, a[j].tile);
      assert b[j] == a[j];
    }
    if IsData(nodes[k]) && Above(id, nodes[k].tile) {
      assert b[k] == nodes[k];
    }
    if Required(b, id) {
      var j :| 0 <= j < |b| && IsData(b[j]) && Above(id, b[j].tile);
      assert j < k ==> a[j] == b[j];
    }
  }

  method FindRequired(nodes: seq<CopcNode>, indices: map<TileId, nat>) returns (ok: bool, required: seq<bool>)
    requires DistinctTiles(nodes) && forall n :: n in nodes ==> n.IsValid()
    requires forall id :: id in indices <==> HasTile(nodes, id)
    requires forall id :: id in indices ==> indices[id] < |nodes| && nodes[indices[id]].tile == id
    ensures ok <==> AncestorsPresent(nodes)
    ensures ok ==> |required| == |nodes| && forall k :: 0 <= k < |nodes| ==> (required[k] <==> Required(nodes, nodes[k].tile))
  {
    hide HasTile, Required, Above;
    required := seq(|nodes|, _ => false);
    var k := 0;
    forall id ensures !Required(nodes[..0], id) {
      NothingRequired(nodes[..0], id);
    }
    while k < |nodes|
      invariant 0 <= k <= |nodes| && |required| == |nodes|
      invariant forall id :: Required(nodes[..k], id) ==> HasTile(nodes, id)
      invariant forall j :: 0 <= j < |nodes| ==> (required[j] <==> Required(nodes[..k], nodes[j].tile))
    {
      forall id
        ensures Required(nodes[..k + 1], id)
          <==> Required(nodes[..k], id) || (id.level >= 0 && IsData(nodes[k]) && Above(id, nodes[k].tile))
      {
        RequiredNext(nodes, k, id);
      }
      assert nodes[k] in nodes;
      if IsData(nodes[k]) {
        ghost var tile := nodes[k].tile;
        ok, required := MarkPath(nodes, indices, required, nodes[k].tile);
        if !ok {
          ghost var id: TileId :| id.level >= 0 && Above(id, tile) && !HasTile(nodes, id);
          RequiredByData(nodes, k, id);
          return false, required;
        }
      }
      k := k + 1;
    }
    assert nodes[..k] == nodes;
    ok := true;
  }

  lemma NothingRequired(nodes: seq<CopcNode>, id: TileId)
    requires nodes == []
    ensures !Required(nodes, id)
  {
  }

  lemma RequiredByData(nodes: seq<CopcNode>, k: nat, id: TileId)
    requires k < |nodes| && IsData(nodes[k]) && id.level >= 0 && Above(id, nodes[k].tile)
    ensures Required(nodes, id)
  {
  }

  // ----- Summing from the deepest level up

  const SELF: TileId -> TileId := (id: TileId) => id

  /** Every deeper required node already has its sum. */
  ghost predicate SummedBelow(nodes: seq<CopcNode>, pointCounts: map<TileId, nat>, level: int)
  {
    forall k :: 0 <= k < |nodes| && Required(nodes, nodes[k].tile) && nodes[k].tile.level > level ==>
      nodes[k].tile in pointCounts && pointCounts[nodes[k].tile] == PointsBelow(nodes, nodes[k].tile)
  }

  lemma RequiredChildrenNext(nodes: seq<CopcNode>, k: nat, id: TileId)
    requires k < |nodes|
    ensures var t := nodes[k].tile;
      RequiredChildren(nodes, nodes[..k + 1], id) == RequiredChildren(nodes, nodes[..k], id)
        + if t.level == id.level + 1 && Parent(t) == id && Required(nodes, t) then [t] else []
  {
    assert nodes[..k + 1][..k] == nodes[..k];
  }

  lemma PointsBelowAllAppend(nodes: seq<CopcNode>, ids: seq<TileId>, id: TileId)
    ensures PointsBelowAll(nodes, ids + [id]) == PointsBelowAll(nodes, ids) + PointsBelow(nodes, id)
  {
    assert (ids + [id])[..|ids|] == ids;
  }

  lemma {:induction false} RequiredChildrenPrefix(nodes: seq<CopcNode>, k: nat, id: TileId)
    requires k <= |nodes|
    ensures PointsBelowAll(nodes, RequiredChildren(nodes, nodes[..k], id))
         <= PointsBelowAll(nodes, RequiredChildren(nodes, nodes, id))
    decreases |nodes| - k
  {
    if k == |nodes| {
      assert nodes[..k] == nodes;
    } else {
      RequiredChildrenPrefix(nodes, k + 1, id);
      RequiredChildrenNext(nodes, k, id);
      var ids := RequiredChildren(nodes, nodes[..k], id);
      PointsBelowAllAppend(nodes, ids, nodes[k].tile);
      assert ids + [] == ids;
    }
  }

  /** Sums one node: its own points and its children's sums; refuses a sum that leaves 64 bits. */
  method SumNode(nodes: seq<CopcNode>, required: seq<bool>, pointCounts: map<TileId, nat>, index: nat)
    returns (ok: bool, pointCount: nat, children: seq<TileId>)
    requires AncestorsPresent(nodes) && DistinctTiles(nodes) && forall n :: n in nodes ==> n.IsValid()
    requires |required| == |nodes| && forall k :: 0 <= k < |nodes| ==> (required[k] <==> Required(nodes, nodes[k].tile))
    requires index < |nodes| && SummedBelow(nodes, pointCounts, nodes[index].tile.level)
    requires IsData(nodes[index]) ==> nodes[index].kind.pointCount <= UINT64_MAX
    ensures ok <==> PointsBelow(nodes, nodes[index].tile) <= UINT64_MAX
    ensures ok ==> pointCount == PointsBelow(nodes, nodes[index].tile)
    ensures ok ==> children == RequiredChildren(nodes, nodes, nodes[index].tile)
  {
    hide Required, AncestorsPresent, RequiredChildren, PointsBelow, PointsBelowAll, OwnPoints;
    var tile := nodes[index].tile;
    assert nodes[index] in nodes;
    pointCount := if IsData(nodes[index]) then nodes[index].kind.pointCount else 0;
    children := [];
    OwnPointsOfNode(nodes, index);
    RequiredChildrenCover(nodes, tile);
    NoChildrenYet(nodes, tile);
    var k := 0;
    while k < |nodes|
      invariant 0 <= k <= |nodes|
      invariant children == RequiredChildren(nodes, nodes[..k], tile)
      invariant pointCount == OwnPoints(nodes, tile) + PointsBelowAll(nodes, children) <= UINT64_MAX
    {
      RequiredChildrenNext(nodes, k, tile);
      var child := nodes[k].tile;
      if child.level == tile.level + 1 && Half(child.x) == tile.x && Half(child.y) == tile.y && Half(child.z) == tile.z
        && required[k]
      {
        var childCount := pointCounts[child];
        PointsBelowAllAppend(nodes, children, child);
        RequiredChildrenPrefix(nodes, k + 1, tile);
        if childCount > UINT64_MAX - pointCount {
          return false, pointCount, children;
        }
        pointCount := pointCount + childCount;
        children := children + [child];
      }
      k := k + 1;
    }
    assert nodes[..k] == nodes;
    ok := true;
  }

  lemma NoChildrenYet(nodes: seq<CopcNode>, id: TileId)
    ensures RequiredChildren(nodes, nodes[..0], id) == [] && PointsBelowAll(nodes, []) == 0
  {
  }

  /** The plan's node for the hierarchy's node at `k`. */
  function PlanNode(nodes: seq<CopcNode>, k: nat): TilePlanNode
    requires k < |nodes|
  {
    var n := nodes[k];
    var children := Sort(SELF, RequiredChildren(nodes, nodes, n.tile));
    TilePlanNode(n.tile, n.bounds, PointsBelow(nodes, n.tile),
                 if n.tile.level > 0 then Parent(n.tile) else NO_TILE, children,
                 if IsData(n) then [SourceRange(n.kind.offset, n.kind.size)] else [], children == [])
  }

  const NODE_KEY: TilePlanNode -> TileId := (n: TilePlanNode) => n.id

  const PLANNER_ID := "copc-native-hierarchy"
  const PLANNER_VERSION := 1

  /** `planned` are the required nodes, each once, in ascending order. */
  ghost predicate Planned(nodes: seq<CopcNode>, planned: seq<TilePlanNode>)
  {
    && SortedBy(NODE_KEY, planned) && UniqueUpTo(planned, |planned|)
    && (forall p :: 0 <= p < |planned| ==> IsPlanned(nodes, planned[p]))
    && (forall k :: 0 <= k < |nodes| && Required(nodes, nodes[k].tile) ==> PlanNode(nodes, k) in planned)
  }

  ghost predicate IsPlanOf(nodes: seq<CopcNode>, k: int, p: TilePlanNode)
  {
    0 <= k < |nodes| && Required(nodes, nodes[k].tile) && p == PlanNode(nodes, k)
  }

  ghost predicate IsPlanned(nodes: seq<CopcNode>, p: TilePlanNode)
  {
    exists k :: IsPlanOf(nodes, k, p)
  }

  function IndexKey(nodes: seq<CopcNode>): nat -> TileId
  {
    (k: nat) => if k < |nodes| then nodes[k].tile else NO_TILE
  }

  function Marked(required: seq<bool>): seq<nat>
  {
    if required == [] then []
    else
      var m := |required| - 1;
      Marked(required[..m]) + if required[m] then [m] else []
  }

  lemma {:induction false} MarkedMember(required: seq<bool>, k: nat)
    ensures k in Marked(required) <==> k < |required| && required[k]
  {
    if required != [] {
      MarkedMember(required[..|required| - 1], k);
    }
  }

  lemma {:induction false} MarkedAscending(required: seq<bool>)
    ensures forall i, j :: 0 <= i < j < |Marked(required)| ==> Marked(required)[i] < Marked(required)[j]
  {
    if required != [] {
      var m := |required| - 1;
      MarkedAscending(required[..m]);
      var before := Marked(required[..m]);
      forall i | 0 <= i < |before| ensures before[i] < m {
        assert before[i] in before;
        MarkedMember(required[..m], before[i]);
      }
    }
  }

  /** The required nodes by ascending tile; the source's loops run over them from the last to the first,
      so from the deepest level up. (It breaks ties within a level by the text of the identity, which
      no result depends on.) */
  ghost predicate Order(nodes: seq<CopcNode>, order: seq<nat>)
  {
    && SortedBy(IndexKey(nodes), order) && UniqueBy(IndexKey(nodes), order)
    && (forall j :: 0 <= j < |order| ==> order[j] < |nodes| && Required(nodes, nodes[order[j]].tile))
    && forall k: nat :: k < |nodes| && Required(nodes, nodes[k].tile) ==> k in order
  }

  lemma OrderOf(nodes: seq<CopcNode>, required: seq<bool>)
    requires DistinctTiles(nodes) && |required| == |nodes|
    requires forall k :: 0 <= k < |nodes| ==> (required[k] <==> Required(nodes, nodes[k].tile))
    ensures Order(nodes, Sort(IndexKey(nodes), Marked(required)))
  {
    hide Required, Sort, Marked;
    var key, marked := IndexKey(nodes), Marked(required);
    SortSorted(key, marked);
    MarkedAscending(required);
    forall k: nat ensures k in Sort(key, marked) <==> k < |nodes| && required[k] {
      SortMember(key, marked, k);
      MarkedMember(required, k);
    }
    forall i, j | 0 <= i < j < |marked| ensures key(marked[i]) != key(marked[j]) {
      MarkedMember(required, marked[i]);
      MarkedMember(required, marked[j]);
      assert marked[i] in marked && marked[j] in marked;
      DistinctIndex(nodes, marked[i], marked[j]);
    }
    SortUnique(key, marked);
    var order := Sort(key, marked);
    forall j | 0 <= j < |order| ensures order[j] < |nodes| && required[order[j]] {
      assert order[j] in order;
    }
  }

  /** The sums and children are right for the nodes in `order` from `from` on. */
  ghost predicate SummedFrom(nodes: seq<CopcNode>, order: seq<nat>, from: nat, pointCounts: map<TileId, nat>,
                             children: map<TileId, seq<TileId>>)
    requires from <= |order| && forall j :: 0 <= j < |order| ==> order[j] < |nodes|
  {
    forall i :: from <= i < |order| ==>
      var t := nodes[order[i]].tile;
      && t in pointCounts && pointCounts[t] == PointsBelow(nodes, t)
      && t in children && children[t] == RequiredChildren(nodes, nodes, t)
  }

  /** Deeper required nodes come later in the order. */
  lemma DeeperComeLater(nodes: seq<CopcNode>, order: seq<nat>, i: nat, pointCounts: map<TileId, nat>,
                        children: map<TileId, seq<TileId>>)
    requires Order(nodes, order) && i < |order| && SummedFrom(nodes, order, i + 1, pointCounts, children)
    ensures SummedBelow(nodes, pointCounts, nodes[order[i]].tile.level)
  {
    hide Required, PointsBelow, RequiredChildren;
    var key := IndexKey(nodes);
    forall a | 0 <= a < i ensures nodes[order[a]].tile.level <= nodes[order[i]].tile.level {
      assert AtMost(key(order[a]), key(order[i]));
    }
    forall k | 0 <= k < |nodes| && Required(nodes, nodes[k].tile) && nodes[k].tile.level > nodes[order[i]].tile.level
      ensures nodes[k].tile in pointCounts && pointCounts[nodes[k].tile] == PointsBelow(nodes, nodes[k].tile)
    {
      assert k in order;
      var j :| 0 <= j < |order| && order[j] == k;
      assert j > i;
    }
  }

  method SumAll(nodes: seq<CopcNode>, required: seq<bool>, order: seq<nat>)
    returns (ok: bool, pointCounts: map<TileId, nat>, children: map<TileId, seq<TileId>>)
    requires AncestorsPresent(nodes) && DistinctTiles(nodes) && forall n :: n in nodes ==> n.IsValid()
    requires |required| == |nodes| && forall k :: 0 <= k < |nodes| ==> (required[k] <==> Required(nodes, nodes[k].tile))
    requires Order(nodes, order) && WidthsOk(nodes)
    ensures ok <==> forall k :: 0 <= k < |nodes| && Required(nodes, nodes[k].tile) ==>
      PointsBelow(nodes, nodes[k].tile) <= UINT64_MAX
    ensures ok ==> SummedFrom(nodes, order, 0, pointCounts, children)
  {
    hide Required, AncestorsPresent, RequiredChildren, PointsBelow, DistinctTiles, SummedBelow, SortedBy, UniqueBy;
    pointCounts, children := map[], map[];
    var i := |order|;
    while i > 0
      invariant 0 <= i <= |order|
      invariant SummedFrom(nodes, order, i, pointCounts, children)
      invariant forall j :: i <= j < |order| ==> PointsBelow(nodes, nodes[order[j]].tile) <= UINT64_MAX
    {
      i := i - 1;
      DeeperComeLater(nodes, order, i, pointCounts, children);
      var index := order[i];
      var pointCount, kids;
      assert nodes[index] in nodes;
      ok, pointCount, kids := SumNode(nodes, required, pointCounts, index);
      if !ok {
        return false, pointCounts, children;
      }
      OrderedOnce(nodes, order, i);
      pointCounts := pointCounts[nodes[index].tile := pointCount];
      children := children[nodes[index].tile := kids];
    }
    forall k | 0 <= k < |nodes| && Required(nodes, nodes[k].tile)
      ensures PointsBelow(nodes, nodes[k].tile) <= UINT64_MAX
    {
      assert k in order;
      var j :| 0 <= j < |order| && order[j] == k;
    }
    ok := true;
  }

  lemma OrderedOnce(nodes: seq<CopcNode>, order: seq<nat>, i: nat)
    requires Order(nodes, order) && i < |order|
    ensures forall j :: 0 <= j < |order| && j != i ==> nodes[order[j]].tile != nodes[order[i]].tile
  {
    hide Required;
    var key := IndexKey(nodes);
    forall j | 0 <= j < |order| && j != i ensures nodes[order[j]].tile != nodes[order[i]].tile {
      assert if j < i then key(order[j]) != key(order[i]) else key(order[i]) != key(order[j]);
    }
  }

  /** The fields stay within their 64-bit widths. */
  predicate WidthsOk(nodes: seq<CopcNode>)
  {
    forall n :: n in nodes && IsData(n) ==>
      n.kind.pointCount <= UINT64_MAX && n.kind.offset <= UINT64_MAX && n.kind.size <= UINT64_MAX
  }

  // ----- The plan

  /** Whether the hierarchy's nodes can be planned: every ancestor of a data node is there, there is a data node,
      all lie below the root tile, and neither the total of the points nor a byte range leaves 64 bits. */
  ghost predicate Plannable(nodes: seq<CopcNode>)
  {
    && AncestorsPresent(nodes)
    && Required(nodes, ROOT) && AllUnderRoot(nodes)
    && AllPoints(nodes) <= UINT64_MAX && RangesFit(nodes)
  }

  function PlanWith(planned: seq<TilePlanNode>): TilePlan
  {
    TilePlan(PLANNER_ID, PLANNER_VERSION, planned)
  }

  method CollectPlan(nodes: seq<CopcNode>, order: seq<nat>, pointCounts: map<TileId, nat>, children: map<TileId, seq<TileId>>)
    returns (planned: seq<TilePlanNode>)
    requires Order(nodes, order) && SummedFrom(nodes, order, 0, pointCounts, children)
    ensures Planned(nodes, planned)
  {
    hide Required, RequiredChildren, PointsBelow, Sort;
    var collected: seq<TilePlanNode> := [];
    var i := |order|;
    while i > 0
      invariant 0 <= i <= |order| && |collected| == |order| - i
      invariant forall j :: 0 <= j < |collected| ==> collected[j] == PlanNode(nodes, order[|order| - 1 - j])
    {
      i := i - 1;
      var node := nodes[order[i]];
      var kids := Sort(SELF, children[node.tile]);
      var n := TilePlanNode(node.tile, node.bounds, pointCounts[node.tile], NO_TILE, kids, [], kids == []);
      if node.tile.level > 0 {
        n := n.(parent := Parent(node.tile));
      }
      if IsData(node) {
        n := n.(sourceRanges := [SourceRange(node.kind.offset, node.kind.size)]);
      }
      collected := collected + [n];
    }
    planned := Sort(NODE_KEY, collected);
    CollectedIsPlanned(nodes, order, collected);
  }

  lemma CollectedUnique(nodes: seq<CopcNode>, order: seq<nat>, collected: seq<TilePlanNode>)
    requires Order(nodes, order) && |collected| == |order|
    requires forall j :: 0 <= j < |collected| ==> collected[j] == PlanNode(nodes, order[|order| - 1 - j])
    ensures UniqueBy(NODE_KEY, collected)
  {
    hide Required, RequiredChildren, PointsBelow, Sort, Order;
    forall i, j | 0 <= i < j < |collected| ensures NODE_KEY(collected[i]) != NODE_KEY(collected[j]) {
      OrderedOnce(nodes, order, |order| - 1 - i);
      OrderInRange(nodes, order);
    }
  }

  lemma OrderInRange(nodes: seq<CopcNode>, order: seq<nat>)
    requires Order(nodes, order)
    ensures forall j :: 0 <= j < |order| ==> order[j] < |nodes| && Required(nodes, nodes[order[j]].tile)
  {
  }

  lemma CollectedMember(nodes: seq<CopcNode>, order: seq<nat>, collected: seq<TilePlanNode>, p: TilePlanNode)
    requires Order(nodes, order) && |collected| == |order|
    requires forall j :: 0 <= j < |collected| ==> collected[j] == PlanNode(nodes, order[|order| - 1 - j])
    ensures p in Sort(NODE_KEY, collected) <==> IsPlanned(nodes, p)
  {
    hide Required, Sort, PlanNode, SortedBy, UniqueBy;
    SortMember(NODE_KEY, collected, p);
    if p in collected {
      var j :| 0 <= j < |collected| && collected[j] == p;
      assert IsPlanOf(nodes, order[|order| - 1 - j], p);
    }
    if k :| IsPlanOf(nodes, k, p) {
      assert k in order;
      var j :| 0 <= j < |order| && order[j] == k;
      assert collected[|order| - 1 - j] == p;
    }
  }

  lemma CollectedIsPlanned(nodes: seq<CopcNode>, order: seq<nat>, collected: seq<TilePlanNode>)
    requires Order(nodes, order) && |collected| == |order|
    requires forall j :: 0 <= j < |collected| ==> collected[j] == PlanNode(nodes, order[|order| - 1 - j])
    ensures Planned(nodes, Sort(NODE_KEY, collected))
  {
    hide Required, Sort, PlanNode, SortedBy, Order, UniqueBy;
    var planned := Sort(NODE_KEY, collected);
    SortSorted(NODE_KEY, collected);
    CollectedUnique(nodes, order, collected);
    SortUnique(NODE_KEY, collected);
    UniqueIds(planned);
    forall p | 0 <= p < |planned| ensures IsPlanned(nodes, planned[p]) {
      assert planned[p] in planned;
      CollectedMember(nodes, order, collected, planned[p]);
    }
    forall k | 0 <= k < |nodes| && Required(nodes, nodes[k].tile) ensures PlanNode(nodes, k) in planned {
      assert IsPlanOf(nodes, k, PlanNode(nodes, k));
      CollectedMember(nodes, order, collected, PlanNode(nodes, k));
    }
  }

  lemma UniqueIds(planned: seq<TilePlanNode>)
    requires UniqueBy(NODE_KEY, planned)
    ensures UniqueUpTo(planned, |planned|)
  {
    assert forall i, j :: 0 <= i < j < |planned| ==> NODE_KEY(planned[i]) != NODE_KEY(planned[j]);
  }

  lemma RequiredParent(nodes: seq<CopcNode>, id: TileId)
    requires Required(nodes, id) && id.level > 0
    ensures Required(nodes, Parent(id))
  {
    var k :| 0 <= k < |nodes| && IsData(nodes[k]) && Above(id, nodes[k].tile);
    ParentAbove(id, nodes[k].tile);
  }

  lemma PlannedAt(nodes: seq<CopcNode>, planned: seq<TilePlanNode>, id: TileId) returns (p: nat, k: nat)
    requires AncestorsPresent(nodes) && Planned(nodes, planned) && Required(nodes, id)
    ensures k < |nodes| && nodes[k].tile == id
    ensures p < |planned| && planned[p] == PlanNode(nodes, k) && planned[p].id == id
  {
    k :| 0 <= k < |nodes| && nodes[k].tile == id;
    assert PlanNode(nodes, k) in planned;
    p :| 0 <= p < |planned| && planned[p] == PlanNode(nodes, k);
  }

  lemma PlanChildren(nodes: seq<CopcNode>, k: nat, c: TileId)
    requires k < |nodes|
    ensures c in PlanNode(nodes, k).children
      <==> HasTile(nodes, c) && c.level == nodes[k].tile.level + 1 && Parent(c) == nodes[k].tile && Required(nodes, c)
  {
    hide Sort;
    SortMember(SELF, RequiredChildren(nodes, nodes, nodes[k].tile), c);
    RequiredChildrenMember(nodes, nodes, nodes[k].tile, c);
  }

  lemma PlanChildrenDistinct(nodes: seq<CopcNode>, k: nat)
    requires DistinctTiles(nodes) && k < |nodes|
    ensures Distinct(PlanNode(nodes, k).children)
  {
    hide Sort;
    var children := RequiredChildren(nodes, nodes, nodes[k].tile);
    RequiredChildrenDistinct(nodes, nodes, nodes[k].tile);
    assert UniqueBy(SELF, children);
    SortUnique(SELF, children);
    var sorted := Sort(SELF, children);
    assert forall i, j :: 0 <= i < j < |sorted| ==> SELF(sorted[i]) != SELF(sorted[j]);
  }

  lemma PlannedNodeOk(nodes: seq<CopcNode>, planned: seq<TilePlanNode>, p: nat)
    requires DistinctTiles(nodes) && AncestorsPresent(nodes) && Planned(nodes, planned) && p < |planned|
    ensures NodeOk(planned, planned[p])
  {
    hide Required, Sort, SortedBy, UniqueUpTo, RequiredChildren, PointsBelow, AncestorsPresent, HasTile;
    var k :| IsPlanOf(nodes, k, planned[p]);
    var n := planned[p];
    hide Planned;
    RequiredLevel(nodes, n.id);
    if n.id.level > 0 {
      RequiredParent(nodes, n.id);
      var q, j := PlannedAt(nodes, planned, Parent(n.id));
      NodeHasTile(nodes, k);
      PlanChildren(nodes, j, n.id);
    }
    PlanChildrenDistinct(nodes, k);
    forall c | 0 <= c < |n.children| ensures ChildOk(planned, n, n.children[c]) {
      PlanChildren(nodes, k, n.children[c]);
      var q, j := PlannedAt(nodes, planned, n.children[c]);
    }
  }

  lemma RequiredLevel(nodes: seq<CopcNode>, id: TileId)
    requires Required(nodes, id)
    ensures id.level >= 0
  {
  }

  lemma NodeHasTile(nodes: seq<CopcNode>, k: nat)
    requires k < |nodes|
    ensures HasTile(nodes, nodes[k].tile)
  {
  }

  /** A planned node is valid exactly when its byte range stays within 64 bits. */
  lemma PlannedNodeValid(nodes: seq<CopcNode>, k: nat)
    requires (forall n :: n in nodes ==> n.IsValid()) && k < |nodes| && Required(nodes, nodes[k].tile)
    ensures PlanNode(nodes, k).IsValid()
      <==> (IsData(nodes[k]) ==> nodes[k].kind.offset + nodes[k].kind.size <= UINT64_MAX)
  {
    hide Required, Sort, RequiredChildren, PointsBelow;
    assert nodes[k] in nodes;
    BelowIsPositive(nodes, nodes[k].tile);
    var p := PlanNode(nodes, k);
    assert IsData(nodes[k]) ==> p.sourceRanges[0] in p.sourceRanges;
  }

  ghost predicate AllUnderRoot(nodes: seq<CopcNode>)
  {
    forall k :: 0 <= k < |nodes| && IsData(nodes[k]) ==> Above(ROOT, nodes[k].tile)
  }

  lemma TopRequired(nodes: seq<CopcNode>, k: nat) returns (top: TileId)
    requires k < |nodes| && IsData(nodes[k]) && nodes[k].tile.level >= 0
    ensures top.level == 0 && Above(top, nodes[k].tile) && Required(nodes, top)
  {
    top := Up(nodes[k].tile, nodes[k].tile.level);
  }

  /** With the root required, it is the only root of the plan exactly when all data lies below it. */
  lemma PlannedRoots(nodes: seq<CopcNode>, planned: seq<TilePlanNode>)
    requires AncestorsPresent(nodes) && Planned(nodes, planned) && Required(nodes, ROOT)
    requires forall n :: n in nodes ==> n.IsValid()
    ensures planned != [] && (RootCount(planned) == 1 <==> AllUnderRoot(nodes))
  {
    hide Required, Sort, SortedBy, RequiredChildren, PointsBelow, AncestorsPresent, HasTile, RootCount, Above;
    var root, _ := PlannedAt(nodes, planned, ROOT);
    forall p | 0 <= p < |planned| ensures (IsRoot(planned[p]) <==> planned[p].id.level == 0) && Required(nodes, planned[p].id) {
      var k :| IsPlanOf(nodes, k, planned[p]);
      RequiredLevel(nodes, planned[p].id);
    }
    if RootCount(planned) == 1 {
      forall k | 0 <= k < |nodes| && IsData(nodes[k]) ensures Above(ROOT, nodes[k].tile) {
        assert nodes[k] in nodes;
        var top := TopRequired(nodes, k);
        var p, _ := PlannedAt(nodes, planned, top);
        OneRoot(planned, root, p);
      }
    }
    if AllUnderRoot(nodes) {
      forall p | 0 <= p < |planned| ensures IsRoot(planned[p]) <==> p == root {
        if IsRoot(planned[p]) {
          RequiredUnderRoot(nodes, planned[p].id);
          FirstIsOnly(planned, p, root);
        }
      }
      RootCountOne(planned, root);
    }
  }

  lemma RequiredUnderRoot(nodes: seq<CopcNode>, id: TileId)
    requires Required(nodes, id) && AllUnderRoot(nodes) && id.level == 0
    ensures id == ROOT
  {
    var k :| 0 <= k < |nodes| && IsData(nodes[k]) && Above(id, nodes[k].tile);
  }

  /** The planned nodes pass the checks exactly when all data lies below the root and the ranges fit. */
  lemma PlannedChecked(nodes: seq<CopcNode>, planned: seq<TilePlanNode>)
    requires DistinctTiles(nodes) && AncestorsPresent(nodes) && Planned(nodes, planned) && Required(nodes, ROOT)
    requires forall n :: n in nodes ==> n.IsValid()
    ensures LocallyChecked(PlanWith(planned)) <==> AllUnderRoot(nodes) && RangesFit(nodes)
  {
    hide Required, Sort, SortedBy, AncestorsPresent, HasTile, RootCount, AllUnderRoot, NodeOk, PlanNode, DistinctTiles;
    PlannedRoots(nodes, planned);
    PlannedNodesOk(nodes, planned);
    if RangesFit(nodes) {
      forall n | n in planned ensures n.IsValid() {
        var p :| 0 <= p < |planned| && planned[p] == n;
        var k :| IsPlanOf(nodes, k, planned[p]);
        PlannedNodeValid(nodes, k);
      }
    }
    if forall n :: n in planned ==> n.IsValid() {
      forall k | 0 <= k < |nodes| && IsData(nodes[k]) ensures nodes[k].kind.offset + nodes[k].kind.size <= UINT64_MAX {
        assert nodes[k] in nodes;
        SelfAbove(nodes[k].tile);
        RequiredByData(nodes, k, nodes[k].tile);
        assert PlanNode(nodes, k) in planned;
        PlannedNodeValid(nodes, k);
      }
    }
  }

  lemma PlannedNodesOk(nodes: seq<CopcNode>, planned: seq<TilePlanNode>)
    requires DistinctTiles(nodes) && AncestorsPresent(nodes) && Planned(nodes, planned)
    ensures forall n :: n in planned ==> NodeOk(planned, n)
  {
    hide Required, AncestorsPresent, NodeOk, PlanNode, DistinctTiles;
    forall n | n in planned ensures NodeOk(planned, n) {
      var p :| 0 <= p < |planned| && planned[p] == n;
      PlannedNodeOk(nodes, planned, p);
    }
  }

  predicate RangesFit(nodes: seq<CopcNode>)
  {
    forall k :: 0 <= k < |nodes| && IsData(nodes[k]) ==> nodes[k].kind.offset + nodes[k].kind.size <= UINT64_MAX
  }

  method IndexNodes(nodes: seq<CopcNode>) returns (indices: map<TileId, nat>)
    requires DistinctTiles(nodes)
    ensures forall id :: id in indices <==> HasTile(nodes, id)
    ensures forall id :: id in indices ==> indices[id] < |nodes| && nodes[indices[id]].tile == id
  {
    indices := map[];
    var k := 0;
    while k < |nodes|
      invariant 0 <= k <= |nodes|
      invariant forall id :: id in indices ==> indices[id] < k && nodes[indices[id]].tile == id
      invariant forall j :: 0 <= j < k ==> nodes[j].tile in indices
    {
      indices := indices[nodes[k].tile := k];
      k := k + 1;
    }
  }

  /** Succeeds exactly on a valid hierarchy that can be planned. */
  method BuildTilePlan(hierarchy: Hierarchy) returns (ok: bool, plan: TilePlan)
    requires WidthsOk(hierarchy.nodes)
    ensures ok <==> hierarchy.IsValid() && Plannable(hierarchy.nodes)
    ensures ok ==> plan == TilePlan("copc-native-hierarchy", 1, plan.nodes)
    ensures ok ==> Planned(hierarchy.nodes, plan.nodes) && LocallyChecked(plan)
    ensures !ok ==> plan == TilePlan("", 0, [])
  {
    hide Required, AncestorsPresent, PointsBelow, AllPoints, LocallyChecked, Planned, Order, SummedFrom, HasTile, Above;
    plan := EMPTY_TILE_PLAN;
    if !hierarchy.IsValid() {
      return false, plan;
    }
    var nodes := hierarchy.nodes;
    var indices := IndexNodes(nodes);
    var required;
    ok, required := FindRequired(nodes, indices);
    if !ok {
      return false, plan;
    }
    RootPresent(nodes);
    if ROOT !in indices || !required[indices[ROOT]] {
      return false, plan;
    }
    var order := Sort(IndexKey(nodes), Marked(required));
    OrderOf(nodes, required);
    var pointCounts, children;
    ok, pointCounts, children := SumAll(nodes, required, order);
    SumsFit(nodes);
    if !ok {
      return false, plan;
    }
    var planned := CollectPlan(nodes, order, pointCounts, children);
    PlannedChecked(nodes, planned);
    plan := PlanWith(planned);
    ok := ValidateTilePlan(plan);
    if !ok {
      plan := EMPTY_TILE_PLAN;
    }
  }

  lemma RootPresent(nodes: seq<CopcNode>)
    ensures AncestorsPresent(nodes) && Required(nodes, ROOT) ==> HasTile(nodes, ROOT)
  {
  }

  /** With all data below the required root, the sums fit exactly when the total does. */
  lemma SumsFit(nodes: seq<CopcNode>)
    requires AncestorsPresent(nodes) && Required(nodes, ROOT)
    ensures AllPoints(nodes) <= UINT64_MAX ==>
      forall k :: 0 <= k < |nodes| && Required(nodes, nodes[k].tile) ==> PointsBelow(nodes, nodes[k].tile) <= UINT64_MAX
    ensures AllUnderRoot(nodes)
      && (forall k :: 0 <= k < |nodes| && Required(nodes, nodes[k].tile) ==> PointsBelow(nodes, nodes[k].tile) <= UINT64_MAX)
      ==> AllPoints(nodes) <= UINT64_MAX
  {
    hide Required, PointsBelow, AllPoints, Above;
    forall k | 0 <= k < |nodes| ensures PointsBelow(nodes, nodes[k].tile) <= AllPoints(nodes) {
      BelowAtMostAll(nodes, nodes[k].tile);
    }
    if AllUnderRoot(nodes) {
      AllBelowRoot(nodes, ROOT);
      var k :| 0 <= k < |nodes| && nodes[k].tile == ROOT;
    }
  }
}
