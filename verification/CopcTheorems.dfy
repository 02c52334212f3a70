/** From the bytes of a COPC file to a tile plan. */
module CopcTheorems {
  import opened TileIds
  import opened TilePlan
  import opened Bytes
  import opened CopcPages
  import opened CopcHierarchy
  import opened CopcPlan

  /** Halving coordinates of the grid keeps them in the coarser grid. */
  lemma {:induction false} GridBelowRoot(id: TileId)
    requires InGrid(id)
    ensures Above(ROOT, id)
    decreases id.level
  {
    if id.level > 0 {
      assert Pow2(id.level) == 2 * Pow2(id.level - 1);
      GridBelowRoot(Parent(id));
    } else {
      assert Pow2(0) == 1;
    }
  }

  lemma {:induction false} AllPointsOfEntries(nodes: seq<CopcNode>, entries: seq<Entry>)
    requires |nodes| == |entries| && forall k :: 0 <= k < |nodes| ==> nodes[k].kind == KindOf(entries[k])
    ensures AllPoints(nodes) == PointTotal(entries)
  {
    if nodes != [] {
      var m := |nodes| - 1;
      AllPointsOfEntries(nodes[..m], entries[..m]);
    }
  }

  lemma {:induction false} OneOfTotal(entries: seq<Entry>, k: nat)
    requires k < |entries| && entries[k].IsPointData()
    ensures entries[k].pointCount <= PointTotal(entries)
  {
    if k < |entries| - 1 {
      OneOfTotal(entries[..|entries| - 1], k);
    }
  }

  /** A hierarchy read from a file and modelled node by node can be planned exactly when every ancestor of a data
      node is present and there is a data node. The plan then counts the header's points at its root. */
  lemma ReadHierarchyPlans(bytes: seq<byte>, h: Header, root: Page, g: Geometry)
    requires IsHierarchy(bytes, h, root) && ModelOk(g, Entries(root.items))
    requires h.fileSize <= UINT64_MAX && h.pointCount <= UINT64_MAX
    ensures var nodes := HierarchyOf(g, Entries(root.items), |Entries(root.items)|).nodes;
      && WidthsOk(nodes)
      && (Plannable(nodes) <==> AncestorsPresent(nodes) && exists k :: 0 <= k < |nodes| && IsData(nodes[k]))
      && (Plannable(nodes) ==> PointsBelow(nodes, ROOT) == h.pointCount)
  {
    hide Above, AncestorsPresent, PointsBelow, AllPoints, Entries, PointTotal, PageMatches, Offsets, InGrid, CellOk, NodeOf;
    var entries := Entries(root.items);
    var nodes := HierarchyOf(g, entries, |entries|).nodes;
    forall k | 0 <= k < |nodes|
      ensures nodes[k].tile == TileOf(entries[k]) && nodes[k].kind == KindOf(entries[k])
      ensures IsData(nodes[k]) ==> Above(ROOT, nodes[k].tile)
      ensures IsData(nodes[k]) ==> nodes[k].kind.pointCount <= UINT64_MAX
      ensures IsData(nodes[k]) ==> nodes[k].kind.offset + nodes[k].kind.size <= UINT64_MAX
    {
      NodeMatchesEntry(g, entries, k);
      if IsData(nodes[k]) {
        DataEntryFits(bytes, h, root, k);
        GridBelowRoot(TileOf(entries[k]));
      }
    }
    forall n | n in nodes && IsData(n)
      ensures n.kind.pointCount <= UINT64_MAX && n.kind.offset <= UINT64_MAX && n.kind.size <= UINT64_MAX
    {
      var k :| 0 <= k < |nodes| && nodes[k] == n;
    }
    AllPointsOfEntries(nodes, entries);
    AllBelowRoot(nodes, ROOT);
    if k :| 0 <= k < |nodes| && IsData(nodes[k]) {
      assert Required(nodes, ROOT);
    }
  }

  lemma NodeMatchesEntry(g: Geometry, entries: seq<Entry>, k: nat)
    requires k < |entries| && forall e :: e in entries ==> CellOk(g, e)
    ensures var n := HierarchyOf(g, entries, |entries|).nodes[k];
      n.tile == TileOf(entries[k]) && n.kind == KindOf(entries[k]) && InGrid(n.tile)
  {
    assert entries[k] in entries;
  }

  lemma DataEntryFits(bytes: seq<byte>, h: Header, root: Page, k: nat)
    requires IsHierarchy(bytes, h, root) && k < |Entries(root.items)| && Entries(root.items)[k].IsPointData()
    requires h.fileSize <= UINT64_MAX && h.pointCount <= UINT64_MAX
    ensures var e := Entries(root.items)[k];
      e.pointCount <= UINT64_MAX && e.offset + AsUnsigned(e.byteSize) <= UINT64_MAX
  {
    hide Entries, PointTotal, Offsets;
    var e := Entries(root.items)[k];
    WalkedEntriesInFile(bytes, h, root.offset, root.items, e);
    OneOfTotal(Entries(root.items), k);
  }
}
