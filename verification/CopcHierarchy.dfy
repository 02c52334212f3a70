/** The node model of a COPC hierarchy and the tile plan made from it. */
module CopcHierarchy {
  import opened Seqs
  import opened TileIds
  import opened TilePlan
  import opened CopcPages

  datatype NodeKind =
    | PointData(pointCount: nat, offset: nat, size: nat)
    | HierarchyPage(pageOffset: nat, pageSize: nat)
    | EmptyNode

  datatype CopcNode = CopcNode(tile: TileId, bounds: Bounds, kind: NodeKind, children: seq<TileId>) {
    predicate IsValid()
    {
      && tile.IsValid() && bounds.IsValid()
      && (kind.PointData? ==> kind.pointCount != 0 && kind.offset != 0 && kind.size != 0)
      && (kind.HierarchyPage? ==> kind.pageOffset != 0 && kind.pageSize != 0)
      && (forall c :: c in children ==> c.IsValid()) && Distinct(children)
    }
  }

  predicate Inside(outer: Bounds, inner: Bounds)
  {
    && outer.Bounds? && inner.Bounds?
    && outer.minimum.x <= inner.minimum.x && outer.minimum.y <= inner.minimum.y && outer.minimum.z <= inner.minimum.z
    && inner.maximum.x <= outer.maximum.x && inner.maximum.y <= outer.maximum.y && inner.maximum.z <= outer.maximum.z
  }

  predicate DistinctTiles(nodes: seq<CopcNode>)
  {
    forall i, j :: 0 <= i < j < |nodes| ==> nodes[i].tile != nodes[j].tile
  }

  datatype Hierarchy = Hierarchy(bounds: Bounds, nodes: seq<CopcNode>) {
    predicate IsValid()
    {
      && bounds.IsValid() && nodes != []
      && (forall n :: n in nodes ==> n.IsValid() && Inside(bounds, n.bounds))
      && DistinctTiles(nodes)
      && exists k :: 0 <= k < |nodes| && nodes[k].tile == ROOT
    }
  }

  const NO_HIERARCHY := Hierarchy(Nowhere, [])

  // ----- From entries to nodes

  /** The boxes computed for the cells in floating point: `cell` gives none where a box or the point
      spacing comes out as not finite or not positive. */
  datatype Geometry = Geometry(bounds: Bounds, cell: TileId -> Bounds)

  function TileOf(e: Entry): TileId { TileId(e.level, e.x, e.y, e.z) }

  /** The coordinates lie in the grid of their level. */
  predicate InGrid(id: TileId)
  {
    && 0 <= id.level <= 31
    && 0 <= id.x < Pow2(id.level) && 0 <= id.y < Pow2(id.level) && 0 <= id.z < Pow2(id.level)
  }

  predicate CellOk(g: Geometry, e: Entry)
  {
    InGrid(TileOf(e)) && g.cell(TileOf(e)).IsValid()
  }

  /** A signed value stored in an unsigned 64-bit field. */
  function AsUnsigned(i: int): nat { i % 0x1_0000_0000_0000_0000 }

  function KindOf(e: Entry): NodeKind
  {
    if e.IsPointData() then PointData(e.pointCount, e.offset, AsUnsigned(e.byteSize))
    else if e.IsHierarchyPage() then HierarchyPage(e.offset, AsUnsigned(e.byteSize))
    else EmptyNode
  }

  /** The tiles of `entries` whose parent is `id`, in order. */
  function ChildTiles(entries: seq<Entry>, id: TileId): seq<TileId>
  {
    if entries == [] then []
    else
      var t := TileOf(entries[|entries| - 1]);
      ChildTiles(entries[..|entries| - 1], id) + if t.level != 0 && Parent(t) == id then [t] else []
  }

  function NodeOf(g: Geometry, entries: seq<Entry>, e: Entry): CopcNode
  {
    CopcNode(TileOf(e), g.cell(TileOf(e)), KindOf(e), ChildTiles(entries, TileOf(e)))
  }

  /** The hierarchy whose first entries already have been handed to their parents. */
  function HierarchyOf(g: Geometry, entries: seq<Entry>, handed: nat): (r: Hierarchy)
    requires handed <= |entries|
    ensures |r.nodes| == |entries|
    ensures forall k :: 0 <= k < |entries| ==> r.nodes[k] == NodeOf(g, entries[..handed], entries[k])
  {
    Hierarchy(g.bounds, seq(|entries|, k requires 0 <= k < |entries| => NodeOf(g, entries[..handed], entries[k])))
  }

  predicate DistinctEntries(entries: seq<Entry>)
  {
    forall i, j :: 0 <= i < j < |entries| ==> TileOf(entries[i]) != TileOf(entries[j])
  }

  predicate ModelOk(g: Geometry, entries: seq<Entry>)
  {
    && entries != [] && (forall e :: e in entries ==> CellOk(g, e))
    && DistinctEntries(entries) && HierarchyOf(g, entries, |entries|).IsValid()
  }

  /** Collects the nodes; the index finds each by its tile. */
  method CollectNodes(g: Geometry, entries: seq<Entry>) returns (ok: bool, nodes: seq<CopcNode>, indices: map<TileId, nat>)
    ensures ok <==> (forall e :: e in entries ==> CellOk(g, e)) && DistinctEntries(entries)
    ensures ok ==> nodes == HierarchyOf(g, entries, 0).nodes
    ensures ok ==> forall id :: id in indices ==> indices[id] < |entries| && TileOf(entries[indices[id]]) == id
    ensures ok ==> forall k :: 0 <= k < |entries| ==> TileOf(entries[k]) in indices
  {
    nodes, indices := [], map[];
    var k := 0;
    while k < |entries|
      invariant 0 <= k <= |entries| && |nodes| == k
      invariant forall j :: 0 <= j < k ==> CellOk(g, entries[j]) && nodes[j] == NodeOf(g, [], entries[j])
      invariant DistinctEntries(entries[..k])
      invariant forall id :: id in indices ==> indices[id] < k && TileOf(entries[indices[id]]) == id
      invariant forall j :: 0 <= j < k ==> TileOf(entries[j]) in indices
    {
      var entry := entries[k];
      if !CellOk(g, entry) {
        assert entry in entries;
        return false, nodes, indices;
      }
      var tile := TileOf(entry);
      if tile in indices {
        assert TileOf(entries[indices[tile]]) == TileOf(entries[k]);
        return false, nodes, indices;
      }
      indices := indices[tile := k];
      nodes := nodes + [CopcNode(tile, g.cell(tile), KindOf(entry), [])];
      k := k + 1;
    }
    assert entries[..0] == [] && entries[..k] == entries;
    ok := true;
  }

  /** Handing one more node to its parent. */
  lemma HandedNext(g: Geometry, entries: seq<Entry>, k: nat, j: nat)
    requires k < |entries| && j < |entries|
    ensures var t, n := TileOf(entries[k]), NodeOf(g, entries[..k], entries[j]);
      NodeOf(g, entries[..k + 1], entries[j])
      == if t.level != 0 && Parent(t) == n.tile then n.(children := n.children + [t]) else n
  {
    assert entries[..k + 1][..k] == entries[..k];
  }

  /** The second loop: every node below level zero is listed by its parent, if that is a node. */
  method HandToParents(g: Geometry, entries: seq<Entry>, collected: seq<CopcNode>, indices: map<TileId, nat>)
    returns (nodes: seq<CopcNode>)
    requires collected == HierarchyOf(g, entries, 0).nodes && DistinctEntries(entries)
    requires forall id :: id in indices ==> indices[id] < |entries| && TileOf(entries[indices[id]]) == id
    requires forall k :: 0 <= k < |entries| ==> TileOf(entries[k]) in indices
    ensures nodes == HierarchyOf(g, entries, |entries|).nodes
  {
    nodes := collected;
    var k := 0;
    while k < |nodes|
      invariant 0 <= k <= |nodes| == |entries|
      invariant forall j :: 0 <= j < |entries| ==> nodes[j] == NodeOf(g, entries[..k], entries[j])
    {
      var tile := nodes[k].tile;
      if tile.level != 0 {
        var parent := Parent(tile);
        if parent in indices {
          var p := indices[parent];
          forall j | 0 <= j < |entries| ensures TileOf(entries[j]) == parent <==> j == p {
            if TileOf(entries[j]) == parent { SameEntry(entries, p, j); }
          }
          nodes := nodes[p := nodes[p].(children := nodes[p].children + [tile])];
        }
      }
      forall j | 0 <= j < |entries| ensures nodes[j] == NodeOf(g, entries[..k + 1], entries[j]) {
        HandedNext(g, entries, k, j);
      }
      k := k + 1;
    }
  }

  method BuildHierarchy(g: Geometry, header: Header, entries: seq<Entry>) returns (ok: bool, hierarchy: Hierarchy)
    ensures ok <==> header.IsValid() && ModelOk(g, entries)
    ensures hierarchy == if ok then HierarchyOf(g, entries, |entries|) else NO_HIERARCHY
  {
    hide CellOk, NodeOf;
    if !header.IsValid() || entries == [] {
      return false, NO_HIERARCHY;
    }
    var indices, nodes;
    ok, nodes, indices := CollectNodes(g, entries);
    if !ok {
      return false, NO_HIERARCHY;
    }
    nodes := HandToParents(g, entries, nodes, indices);
    hierarchy := Hierarchy(g.bounds, nodes);
    assert hierarchy == HierarchyOf(g, entries, |entries|);
    ok := hierarchy.IsValid();
    if !ok {
      hierarchy := NO_HIERARCHY;
    }
  }

  lemma SameEntry(entries: seq<Entry>, i: nat, j: nat)
    requires DistinctEntries(entries) && i < |entries| && j < |entries| && TileOf(entries[i]) == TileOf(entries[j])
    ensures i == j
  {
  }
}
