/** The tile plan of a COPC file, said over the entries of its hierarchy. */
module CopcEntries {
  import opened TileIds
  import opened Seqs
  import opened Bytes
  import opened TilePlan
  import opened CopcPages
  import opened CopcLayout
  import opened CopcHierarchy
  import opened CopcPlan
  import opened CopcTheorems

  /** `f` is `e` or lies below it: its key, halved down to the level of `e`, is that of `e`. */
  predicate Under(e: Entry, f: Entry)
    requires e.level >= 0
  {
    e.level <= f.level &&
    var size := Pow2(f.level - e.level);
    e.x == f.x / size && e.y == f.y / size && e.z == f.z / size
  }

  /** The points of all entries with data at or below `e`. */
  function PointsUnder(entries: seq<Entry>, e: Entry): nat
    requires e.level >= 0
  {
    if entries == [] then 0
    else
      var f := entries[|entries| - 1];
      PointsUnder(entries[..|entries| - 1], e) + if f.pointCount > 0 && Under(e, f) then f.pointCount else 0
  }

  /** There is data at or below `e`. */
  predicate Needed(entries: seq<Entry>, e: Entry)
    requires e.level >= 0
  {
    exists k :: 0 <= k < |entries| && entries[k].pointCount > 0 && Under(e, entries[k])
  }

  /** `f` is one of the entries directly below `e` that are needed. */
  predicate IsChildOf(entries: seq<Entry>, e: Entry, f: Entry)
  {
    && f in entries && f.level == e.level + 1 && f.level >= 0 && Needed(entries, f)
    && f.x / 2 == e.x && f.y / 2 == e.y && f.z / 2 == e.z
  }

  function Size(e: Entry): nat { if e.byteSize >= 0 then e.byteSize else 0 }

  /** The node of the plan that an entry becomes. */
  ghost predicate IsNodeOf(g: Geometry, entries: seq<Entry>, e: Entry, n: TilePlanNode)
    requires e.level >= 0
  {
    && n.id == TileId(e.level, e.x, e.y, e.z) && n.bounds == g.cell(n.id) && n.pointCount == PointsUnder(entries, e)
    && n.parent == (if e.level == 0 then TileId(-1, 0, 0, 0) else TileId(e.level - 1, e.x / 2, e.y / 2, e.z / 2))
    && n.sourceRanges == (if e.pointCount > 0 then [SourceRange(e.offset, Size(e))] else [])
    && (forall c :: c in n.children <==> exists f :: IsChildOf(entries, e, f) && c == TileId(f.level, f.x, f.y, f.z))
    && Distinct(n.children) && (n.isLeaf <==> n.children == [])
  }

  // ----- Nodes and entries

  /** Entries as they were read: keys in the grid, sizes that are none below zero. */
  ghost predicate ReadOk(g: Geometry, entries: seq<Entry>)
  {
    ModelOk(g, entries) && forall e :: e in entries ==> 0 <= e.byteSize < 0x8000_0000 && e.level >= 0
  }

  ghost function NodesOf(g: Geometry, entries: seq<Entry>): seq<CopcNode>
    requires ReadOk(g, entries)
  {
    HierarchyOf(g, entries, |entries|).nodes
  }

  lemma NodeIs(g: Geometry, entries: seq<Entry>, k: nat)
    requires ReadOk(g, entries) && k < |entries|
    ensures |NodesOf(g, entries)| == |entries|
    ensures var n, e := NodesOf(g, entries)[k], entries[k];
      && n.tile == TileId(e.level, e.x, e.y, e.z) && n.bounds == g.cell(n.tile)
      && e.level >= 0 && e.x >= 0 && e.y >= 0 && e.z >= 0
      && n.kind == if e.pointCount > 0 then CopcHierarchy.PointData(e.pointCount, e.offset, Size(e))
                   else if e.pointCount == -1 then HierarchyPage(e.offset, Size(e)) else EmptyNode
  {
    assert entries[k] in entries;
    assert CellOk(g, entries[k]);
  }

  lemma AboveIsUnder(e: Entry, f: Entry)
    requires e.level >= 0 && f.x >= 0 && f.y >= 0 && f.z >= 0
    ensures Above(TileId(e.level, e.x, e.y, e.z), TileId(f.level, f.x, f.y, f.z)) <==> Under(e, f)
  {
    hide Up, Pow2;
    if e.level <= f.level {
      UpDivides(TileId(f.level, f.x, f.y, f.z), f.level - e.level);
    }
  }

  lemma NeededIsRequired(g: Geometry, entries: seq<Entry>, e: Entry)
    requires ReadOk(g, entries) && e.level >= 0
    ensures Required(NodesOf(g, entries), TileId(e.level, e.x, e.y, e.z)) <==> Needed(entries, e)
  {
    hide Above, Under, NodesOf;
    var nodes := NodesOf(g, entries);
    forall k | 0 <= k < |entries|
      ensures |nodes| == |entries|
      ensures IsData(nodes[k]) && Above(TileId(e.level, e.x, e.y, e.z), nodes[k].tile)
         <==> entries[k].pointCount > 0 && Under(e, entries[k])
    {
      NodeIs(g, entries, k);
      AboveIsUnder(e, entries[k]);
    }
    NodesCounted(g, entries);
  }

  lemma NodesCounted(g: Geometry, entries: seq<Entry>)
    requires ReadOk(g, entries)
    ensures |NodesOf(g, entries)| == |entries|
  {
  }

  lemma {:induction false} PointsAreBelow(g: Geometry, entries: seq<Entry>, e: Entry, k: nat)
    requires ReadOk(g, entries) && e.level >= 0 && k <= |entries| == |NodesOf(g, entries)|
    ensures PointsBelow(NodesOf(g, entries)[..k], TileId(e.level, e.x, e.y, e.z)) == PointsUnder(entries[..k], e)
    decreases k
  {
    hide Above, Under, NodesOf, ReadOk;
    if k > 0 {
      var nodes := NodesOf(g, entries);
      PointsAreBelow(g, entries, e, k - 1);
      NodeIs(g, entries, k - 1);
      AboveIsUnder(e, entries[k - 1]);
      assert nodes[..k][..k - 1] == nodes[..k - 1] && entries[..k][..k - 1] == entries[..k - 1];
    }
  }

  lemma ParentHalves(e: Entry)
    requires e.x >= 0 && e.y >= 0 && e.z >= 0
    ensures Parent(TileId(e.level, e.x, e.y, e.z)) == TileId(e.level - 1, e.x / 2, e.y / 2, e.z / 2)
  {
  }

  lemma ChildrenAre(g: Geometry, entries: seq<Entry>, k: nat, c: TileId)
    requires ReadOk(g, entries) && k < |entries|
    ensures var nodes, e := NodesOf(g, entries), entries[k];
      c in RequiredChildren(nodes, nodes, TileId(e.level, e.x, e.y, e.z))
      <==> exists f :: IsChildOf(entries, e, f) && c == TileId(f.level, f.x, f.y, f.z)
  {
    hide Required, Needed, NodesOf, ReadOk, RequiredChildren, Parent;
    var nodes, e := NodesOf(g, entries), entries[k];
    NodeIs(g, entries, k);
    RequiredChildrenMember(nodes, nodes, TileId(e.level, e.x, e.y, e.z), c);
    if c in RequiredChildren(nodes, nodes, TileId(e.level, e.x, e.y, e.z)) {
      var j :| 0 <= j < |nodes| && nodes[j].tile == c;
      NodeIs(g, entries, j);
      ParentHalves(entries[j]);
      NeededIsRequired(g, entries, entries[j]);
      assert IsChildOf(entries, e, entries[j]);
    }
    if f :| IsChildOf(entries, e, f) && c == TileId(f.level, f.x, f.y, f.z) {
      var j :| 0 <= j < |entries| && entries[j] == f;
      NodeIs(g, entries, j);
      ParentHalves(f);
      NeededIsRequired(g, entries, f);
    }
  }

  lemma NodePlanned(g: Geometry, entries: seq<Entry>, k: nat)
    requires ReadOk(g, entries) && k < |entries| == |NodesOf(g, entries)|
    ensures IsNodeOf(g, entries, entries[k], PlanNode(NodesOf(g, entries), k))
  {
    hide NodesOf, ReadOk, RequiredChildren, IsChildOf, PointsUnder, PointsBelow, Sort, Parent, Half;
    var nodes, e := NodesOf(g, entries), entries[k];
    NodeIs(g, entries, k);
    ParentHalves(e);
    PointsAreBelow(g, entries, e, |entries|);
    assert nodes[..|entries|] == nodes && entries[..|entries|] == entries;
    var children := RequiredChildren(nodes, nodes, nodes[k].tile);
    forall c ensures c in Sort(SELF, children) <==> exists f :: IsChildOf(entries, e, f) && c == TileId(f.level, f.x, f.y, f.z) {
      SortMember(SELF, children, c);
      ChildrenAre(g, entries, k, c);
    }
    NodesDistinct(g, entries);
    RequiredChildrenDistinct(nodes, nodes, nodes[k].tile);
    SortUnique(SELF, children);
  }

  lemma NodesDistinct(g: Geometry, entries: seq<Entry>)
    requires ReadOk(g, entries)
    ensures DistinctTiles(NodesOf(g, entries))
  {
  }

  /** The plan of a hierarchy has exactly one node for each entry with data at or below it, and each is the node that the
      entry becomes. */
  lemma PlanOfEntries(g: Geometry, entries: seq<Entry>, planned: seq<TilePlanNode>)
    requires ReadOk(g, entries) && Planned(NodesOf(g, entries), planned)
    ensures forall n :: n in planned ==>
              exists e :: e in entries && e.level >= 0 && Needed(entries, e) && IsNodeOf(g, entries, e, n)
    ensures forall e :: e in entries && e.level >= 0 && Needed(entries, e) ==>
              exists n :: n in planned && IsNodeOf(g, entries, e, n)
  {
    hide NodesOf, ReadOk, PlanNode, IsNodeOf, Required, Needed;
    var nodes := NodesOf(g, entries);
    NodesCounted(g, entries);
    forall n | n in planned ensures exists e :: e in entries && e.level >= 0 && Needed(entries, e) && IsNodeOf(g, entries, e, n) {
      var p :| 0 <= p < |planned| && planned[p] == n;
      assert IsPlanned(nodes, planned[p]);
      var k :| IsPlanOf(nodes, k, n);
      NodeIs(g, entries, k);
      NodePlanned(g, entries, k);
      NeededIsRequired(g, entries, entries[k]);
      assert entries[k] in entries;
    }
    forall e | e in entries && e.level >= 0 && Needed(entries, e) ensures exists n :: n in planned && IsNodeOf(g, entries, e, n) {
      var k :| 0 <= k < |entries| && entries[k] == e;
      NodeIs(g, entries, k);
      NodePlanned(g, entries, k);
      NeededIsRequired(g, entries, e);
      assert PlanNode(nodes, k) in planned;
    }
  }

  // ----- When there is a hierarchy

  /** The key is one of the grid of 32 levels. */
  predicate KeyOk(e: Entry)
  {
    && 0 <= e.level <= 31
    && 0 <= e.x < Pow2(e.level) && 0 <= e.y < Pow2(e.level) && 0 <= e.z < Pow2(e.level)
  }

  predicate BoxOk(b: Bounds)
  {
    b.Bounds? && b.minimum.x <= b.maximum.x && b.minimum.y <= b.maximum.y && b.minimum.z <= b.maximum.z
  }

  predicate BoxInside(inner: Bounds, outer: Bounds)
  {
    && inner.Bounds? && outer.Bounds?
    && outer.minimum.x <= inner.minimum.x && inner.maximum.x <= outer.maximum.x
    && outer.minimum.y <= inner.minimum.y && inner.maximum.y <= outer.maximum.y
    && outer.minimum.z <= inner.minimum.z && inner.maximum.z <= outer.maximum.z
  }

  /** An entry that passed the reader's checks. */
  predicate EntryOk(e: Entry)
  {
    (IsDataEntry(e) || IsPageEntry(e) || IsEmptyEntry(e)) && e.byteSize < 0x8000_0000
  }

  /** A hierarchy can be built of entries exactly when there is one for the root, all keys are in the grid and different,
      and the cells are boxes inside the hierarchy's. */
  lemma ModelExactly(g: Geometry, entries: seq<Entry>)
    requires forall e :: e in entries ==> EntryOk(e)
    ensures ModelOk(g, entries) <==>
      && BoxOk(g.bounds) && (exists e :: e in entries && e.level == e.x == e.y == e.z == 0)
      && (forall i, j :: 0 <= i < j < |entries| ==> !SameKey(entries[i], entries[j]))
      && (forall e :: e in entries ==> KeyOk(e) && var cell := g.cell(TileId(e.level, e.x, e.y, e.z));
            BoxOk(cell) && BoxInside(cell, g.bounds))
  {
    hide Pow2, NodeOf, Hierarchy.IsValid, SameKey;
    var h := HierarchyOf(g, entries, |entries|);
    DistinctKeys(entries);
    if DistinctEntries(entries) && forall e :: e in entries ==> KeyOk(e) {
      HierarchyValid(g, entries);
    }
    forall e | e in entries ensures CellOk(g, e) <==> KeyOk(e) && BoxOk(g.cell(TileId(e.level, e.x, e.y, e.z))) {
    }
    if exists e :: e in entries && e.level == e.x == e.y == e.z == 0 {
      var e :| e in entries && e.level == e.x == e.y == e.z == 0;
      var k :| 0 <= k < |entries| && entries[k] == e;
    }
  }

  predicate SameKey(e: Entry, f: Entry) { e.level == f.level && e.x == f.x && e.y == f.y && e.z == f.z }

  lemma DistinctKeys(entries: seq<Entry>)
    ensures DistinctEntries(entries) <==> forall i, j :: 0 <= i < j < |entries| ==> !SameKey(entries[i], entries[j])
  {
  }

  lemma HierarchyValid(g: Geometry, entries: seq<Entry>)
    requires forall e :: e in entries ==> EntryOk(e) && KeyOk(e)
    requires DistinctEntries(entries)
    ensures HierarchyOf(g, entries, |entries|).IsValid() <==>
      && BoxOk(g.bounds) && (exists e :: e in entries && e.level == e.x == e.y == e.z == 0)
      && (forall e :: e in entries ==> var cell := g.cell(TileId(e.level, e.x, e.y, e.z));
            BoxOk(cell) && BoxInside(cell, g.bounds))
  {
    hide Pow2, NodeOf, CopcNode.IsValid, BoxOk, BoxInside;
    var h := HierarchyOf(g, entries, |entries|);
    assert entries[..|entries|] == entries;
    forall k | 0 <= k < |entries|
      ensures h.nodes[k].tile == TileId(entries[k].level, entries[k].x, entries[k].y, entries[k].z)
      ensures h.nodes[k].bounds == g.cell(h.nodes[k].tile) && (h.nodes[k].IsValid() <==> BoxOk(h.nodes[k].bounds))
      ensures BoxOk(h.nodes[k].bounds) && BoxOk(g.bounds) ==>
                (Inside(g.bounds, h.nodes[k].bounds) <==> BoxInside(h.nodes[k].bounds, g.bounds))
    {
      assert entries[k] in entries;
      NodeValid(g, entries, k);
    }
    BoundsOk(g.bounds);
    HierarchySpelled(g, entries);
  }

  lemma BoundsOk(b: Bounds)
    ensures b.IsValid() <==> BoxOk(b)
  {
  }

  lemma NodeValid(g: Geometry, entries: seq<Entry>, k: nat)
    requires k < |entries| && EntryOk(entries[k]) && DistinctEntries(entries)
    requires forall e :: e in entries ==> e.level >= 0
    ensures var n := NodeOf(g, entries, entries[k]);
      && n.tile == TileId(entries[k].level, entries[k].x, entries[k].y, entries[k].z) && n.bounds == g.cell(n.tile)
      && (n.IsValid() <==> BoxOk(n.bounds))
      && (BoxOk(n.bounds) && BoxOk(g.bounds) ==> (Inside(g.bounds, n.bounds) <==> BoxInside(n.bounds, g.bounds)))
  {
    hide ChildTiles;
    ChildTilesOk(entries, TileOf(entries[k]));
  }

  lemma {:induction false} ChildTilesOk(entries: seq<Entry>, id: TileId)
    requires DistinctEntries(entries) && forall e :: e in entries ==> e.level >= 0
    ensures forall c :: c in ChildTiles(entries, id) ==> c.level >= 0 && exists e :: e in entries && TileOf(e) == c
    ensures Distinct(ChildTiles(entries, id))
  {
    if entries != [] {
      var m := |entries| - 1;
      ChildTilesOk(entries[..m], id);
      assert entries[m] in entries && forall e :: e in entries[..m] ==> e in entries;
      assert forall e :: e in entries[..m] ==> TileOf(e) != TileOf(entries[m]);
    }
  }

  lemma HierarchySpelled(g: Geometry, entries: seq<Entry>)
    requires DistinctEntries(entries)
    ensures var h := HierarchyOf(g, entries, |entries|);
      h.IsValid() <==>
        && g.bounds.IsValid() && (exists k :: 0 <= k < |entries| && h.nodes[k].tile == ROOT)
        && (forall k :: 0 <= k < |entries| ==> h.nodes[k].IsValid() && Inside(g.bounds, h.nodes[k].bounds))
  {
    hide CopcNode.IsValid, Inside;
    var h := HierarchyOf(g, entries, |entries|);
    assert forall k :: 0 <= k < |entries| ==> h.nodes[k].tile == TileOf(entries[k]);
    assert forall k :: 0 <= k < |entries| ==> h.nodes[k] in h.nodes;
  }

  // ----- When there is a plan

  /** Every entry with data has entries above it at all levels. */
  ghost predicate Connected(entries: seq<Entry>)
  {
    forall e, level: nat :: e in entries && e.pointCount > 0 && level <= e.level ==> HasAbove(entries, e, level)
  }

  ghost predicate HasAbove(entries: seq<Entry>, e: Entry, level: nat)
  {
    exists f :: f in entries && f.level == level && Under(f, e)
  }

  /** Entries read from a file and modelled can be planned exactly when there is data, and entries above all of it. */
  lemma PlannedExactly(bytes: seq<byte>, h: Header, root: Page, g: Geometry)
    requires IsHierarchy(bytes, h, root) && ReadOk(g, Entries(root.items))
    requires h.fileSize <= UINT64_MAX && h.pointCount <= UINT64_MAX
    ensures var entries := Entries(root.items);
      Plannable(NodesOf(g, entries)) <==> Connected(entries) && exists e :: e in entries && e.pointCount > 0
  {
    hide Entries, PointTotal, PageMatches, Offsets, AncestorsPresent, Connected, Plannable, ModelOk, IsHierarchy, PointsBelow;
    var entries := Entries(root.items);
    ReadHierarchyPlans(bytes, h, root, g);
    ConnectedExactly(g, entries);
    NodesCounted(g, entries);
    forall k | 0 <= k < |entries| ensures IsData(NodesOf(g, entries)[k]) <==> entries[k].pointCount > 0 {
      NodeIs(g, entries, k);
    }
    if exists e :: e in entries && e.pointCount > 0 {
      var e :| e in entries && e.pointCount > 0;
      var k :| 0 <= k < |entries| && entries[k] == e;
    }
    if exists k :: 0 <= k < |entries| && IsData(NodesOf(g, entries)[k]) {
      var k :| 0 <= k < |entries| && IsData(NodesOf(g, entries)[k]);
      assert entries[k] in entries;
    }
  }

  lemma ConnectedExactly(g: Geometry, entries: seq<Entry>)
    requires ReadOk(g, entries)
    ensures AncestorsPresent(NodesOf(g, entries)) <==> Connected(entries)
  {
    hide NodesOf, ReadOk, Above, Under;
    var nodes := NodesOf(g, entries);
    NodesCounted(g, entries);
    if AncestorsPresent(nodes) {
      forall e, level: nat | e in entries && e.pointCount > 0 && level <= e.level
        ensures HasAbove(entries, e, level)
      {
        var k :| 0 <= k < |entries| && entries[k] == e;
        NodeIs(g, entries, k);
        var id := AncestorOf(nodes[k].tile, level);
        assert Required(nodes, id);
        var j :| 0 <= j < |nodes| && nodes[j].tile == id;
        NodeIs(g, entries, j);
        AboveIsUnder(entries[j], e);
        assert entries[j] in entries;
      }
    }
    if Connected(entries) {
      forall id | Required(nodes, id) ensures HasTile(nodes, id) {
        var k :| 0 <= k < |nodes| && IsData(nodes[k]) && Above(id, nodes[k].tile);
        NodeIs(g, entries, k);
        AboveLevel(id, nodes[k].tile);
        assert entries[k] in entries && HasAbove(entries, entries[k], id.level);
        var f :| f in entries && f.level == id.level && Under(f, entries[k]);
        var j :| 0 <= j < |entries| && entries[j] == f;
        NodeIs(g, entries, j);
        AboveIsUnder(f, entries[k]);
        OneAtLevel(id, nodes[j].tile, nodes[k].tile);
      }
    }
  }

  lemma AncestorOf(tile: TileId, level: nat) returns (id: TileId)
    requires level <= tile.level
    ensures id.level == level && Above(id, tile)
  {
    id := Up(tile, tile.level - level);
  }

  lemma AboveLevel(id: TileId, tile: TileId)
    requires Above(id, tile)
    ensures id.level <= tile.level
  {
  }

  lemma OneAtLevel(a: TileId, b: TileId, tile: TileId)
    requires Above(a, tile) && Above(b, tile) && a.level == b.level
    ensures a == b
  {
  }
}
