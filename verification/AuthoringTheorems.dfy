/** What an authored manifest says about the stream, and about the plan behind the router. */
module AuthoringTheorems {
  import opened Options
  import opened Bytes
  import opened TileIds
  import opened Seqs
  import opened ExtraByteNames
  import opened SpoolFormat
  import opened Spool
  import opened Columns
  import opened Quadtree
  import opened QuadtreeLaws
  import Router
  import opened TileSpooling
  import opened StreamSpooling
  import opened Authoring

  // ----- Conservation

  function CountsOf(manifest: seq<ManifestEntry>): (r: seq<nat>)
    ensures |r| == |manifest|
  {
    seq(|manifest|, i requires 0 <= i < |manifest| => manifest[i].pointCount)
  }

  function Shares(route: TileSpooling.Router, points: seq<SpoolPoint>, ids: seq<TileId>): (r: seq<nat>)
    ensures |r| == |ids|
  {
    seq(|ids|, i requires 0 <= i < |ids| => |Routed(route, points, ids[i])|)
  }

  /** One more point is one more share of its tile. */
  lemma SharesNext(route: TileSpooling.Router, points: seq<SpoolPoint>, p: SpoolPoint, ids: seq<TileId>, k: nat)
    requires Distinct(ids) && k < |ids| && ids[k] == route(p.source)
    ensures var before := Shares(route, points, ids);
      Shares(route, points + [p], ids) == before[k := before[k] + 1]
  {
    hide Routed;
    var before := Shares(route, points, ids);
    forall i | 0 <= i < |ids| ensures Shares(route, points + [p], ids)[i] == before[k := before[k] + 1][i] {
      RoutedNext(route, points, p, ids[i]);
    }
  }

  /** Points that all go to different tiles of a list are shared out over it. */
  lemma {:induction false} SharesSum(route: TileSpooling.Router, points: seq<SpoolPoint>, ids: seq<TileId>)
    requires Covered(route, points, ids) && Distinct(ids)
    ensures Sum(Shares(route, points, ids)) == |points|
  {
    if points == [] {
      SumOfZeros(Shares(route, points, ids));
    } else {
      var m := |points| - 1;
      var p := points[m];
      var before := Shares(route, points[..m], ids);
      SharesSum(route, points[..m], ids);
      var k :| 0 <= k < |ids| && ids[k] == route(p.source);
      SharesNext(route, points[..m], p, ids, k);
      SumUpdated(before, k, before[k] + 1);
      assert points == points[..m] + [p];
    }
  }

  /** The manifest's counts add up to the points that were streamed. */
  lemma ManifestConserves(route: TileSpooling.Router, attributes: seq<Attribute>, points: seq<SpoolPoint>, tiles: seq<TileAsset>,
                          manifest: seq<ManifestEntry>)
    requires Authored(route, attributes, points, tiles, manifest)
    ensures Sum(CountsOf(manifest)) == |points|
  {
    SharesSum(route, points, IdsOf(manifest));
    hide Sum, Routed, Holds;
    forall i | 0 <= i < |manifest|
      ensures CountsOf(manifest)[i] == Shares(route, points, IdsOf(manifest))[i]
    {
      assert AuthoredTile(route, attributes, points, tiles[i], manifest[i]);
    }
    assert CountsOf(manifest) == Shares(route, points, IdsOf(manifest));
  }

  // ----- The plan comes back

  /** The positions of points, which the spool keeps as bytes. */
  function Decoded(decode: seq<byte> -> Position, points: seq<SpoolPoint>): (r: seq<Position>)
    ensures |r| == |points|
  {
    seq(|points|, i requires 0 <= i < |points| => decode(points[i].source))
  }

  /** A point-budget router, as far as authoring sees it. */
  function RouterOf(s: Split, routing: Router.Routing, decode: seq<byte> -> Position): TileSpooling.Router
  {
    (v: seq<byte>) => Router.Route(s, routing, decode(v))
  }

  /** The router built from a plan. */
  function PlanRouter(s: Split, plan: PointBudgetPlan, decode: seq<byte> -> Position): TileSpooling.Router
  {
    RouterOf(s, Router.RoutingOf(plan.tiles), decode)
  }

  lemma {:induction false} FilterDecoded(decode: seq<byte> -> Position, f: Position -> bool, g: SpoolPoint -> bool,
                                         points: seq<SpoolPoint>)
    requires forall p: SpoolPoint :: g(p) == f(decode(p.source))
    ensures |Filter(f, Decoded(decode, points))| == |Filter(g, points)|
  {
    if points != [] {
      var m := |points| - 1;
      FilterDecoded(decode, f, g, points[..m]);
      assert Decoded(decode, points)[..m] == Decoded(decode, points[..m]);
    }
  }

  /** As many points are spooled for a planned tile as the plan counted in it. */
  lemma PlannedCount(s: Split, cfg: PointBudgetConfig, decode: seq<byte> -> Position, points: seq<SpoolPoint>, i: nat)
    requires cfg.IsValid() && points != [] && AllFinite(Decoded(decode, points))
    requires i < |PlanFor(s, cfg, Decoded(decode, points), Hull(Decoded(decode, points))).tiles|
    ensures var plan := PlanFor(s, cfg, Decoded(decode, points), Hull(Decoded(decode, points)));
      |Routed(PlanRouter(s, plan, decode), points, plan.tiles[i].id)| == plan.tiles[i].pointCount
  {
    hide PlanFor, Hull, Filter, Router.Route, Router.RoutingOf;
    var positions := Decoded(decode, points);
    var plan := PlanFor(s, cfg, positions, Hull(positions));
    var id := plan.tiles[i].id;
    Router.RoutedPointsAreCounted(s, cfg, positions, i);
    FilterDecoded(decode, (p: Position) => Router.Route(s, Router.RoutingOf(plan.tiles), p) == id,
                  (p: SpoolPoint) => RoutesTo(PlanRouter(s, plan, decode), id, p), points);
  }

  /** Every planned position is routed to a planned tile. */
  lemma RoutedToPlan(s: Split, cfg: PointBudgetConfig, positions: seq<Position>, p: Position) returns (i: nat)
    requires cfg.IsValid() && p in positions && AllFinite(positions)
    ensures var plan := PlanFor(s, cfg, positions, Hull(positions));
      i < |plan.tiles| && plan.tiles[i].id == Router.Route(s, Router.RoutingOf(plan.tiles), p)
  {
    hide Grow, Hull, Depth, Router.Route, Router.RoutingOf;
    var root := Place(ROOT, Hull(positions));
    var cell := EveryPointCounted(s, cfg, positions, root, p);
    Router.PointsRoutedHome(s, cfg, positions, cell, p);
    i :| 0 <= i < |Cells(Grow(s, cfg, positions, root))| && Cells(Grow(s, cfg, positions, root))[i] == cell;
  }

  /** With the router of a plan for the same points, the manifest is the plan: the same tiles with the same counts. */
  lemma ManifestIsPlan(s: Split, cfg: PointBudgetConfig, decode: seq<byte> -> Position, attributes: seq<Attribute>,
                       points: seq<SpoolPoint>, tiles: seq<TileAsset>, manifest: seq<ManifestEntry>, id: TileId, n: nat)
    requires cfg.IsValid() && points != [] && AllFinite(Decoded(decode, points))
    requires Authored(PlanRouter(s, PlanFor(s, cfg, Decoded(decode, points), Hull(Decoded(decode, points))), decode),
                      attributes, points, tiles, manifest)
    ensures ManifestEntry(id, n) in manifest <==> exists t ::
      t in PlanFor(s, cfg, Decoded(decode, points), Hull(Decoded(decode, points))).tiles && t.id == id && t.pointCount == n
  {
    hide PlanFor, Hull, Routed, Holds, AllFinite, Decoded, PlanRouter;
    var positions := Decoded(decode, points);
    var plan := PlanFor(s, cfg, positions, Hull(positions));
    var route := PlanRouter(s, plan, decode);
    if ManifestEntry(id, n) in manifest {
      var k :| 0 <= k < |manifest| && manifest[k] == ManifestEntry(id, n);
      assert AuthoredTile(route, attributes, points, tiles[k], manifest[k]);
      HeldPointsRouted(route, attributes, points, id, tiles[k].data);
      var i := TileOfId(s, cfg, decode, points, id);
      PlannedCount(s, cfg, decode, points, i);
      assert plan.tiles[i] in plan.tiles;
    }
    if exists t :: t in plan.tiles && t.id == id && t.pointCount == n {
      var t :| t in plan.tiles && t.id == id && t.pointCount == n;
      var i :| 0 <= i < |plan.tiles| && plan.tiles[i] == t;
      PlannedCount(s, cfg, decode, points, i);
      PlannedNotEmpty(s, cfg, positions, i);
      RoutedCovered(route, points, IdsOf(manifest), id);
      var k :| 0 <= k < |manifest| && IdsOf(manifest)[k] == id;
      assert AuthoredTile(route, attributes, points, tiles[k], manifest[k]);
    }
  }

  lemma HeldPointsRouted(route: TileSpooling.Router, attributes: seq<Attribute>, points: seq<SpoolPoint>, id: TileId,
                         data: Columns.PointData)
    requires Holds(attributes, Routed(route, points, id), data)
    ensures exists p :: p in points && route(p.source) == id
  {
    var mine := Routed(route, points, id);
    assert mine[0] in mine;
    FilterMember((q: SpoolPoint) => RoutesTo(route, id, q), points, mine[0]);
  }

  lemma RoutedCovered(route: TileSpooling.Router, points: seq<SpoolPoint>, ids: seq<TileId>, id: TileId)
    requires Covered(route, points, ids) && Routed(route, points, id) != []
    ensures id in ids
  {
    var mine := Routed(route, points, id);
    assert mine[0] in mine;
    FilterMember((q: SpoolPoint) => RoutesTo(route, id, q), points, mine[0]);
  }

  lemma TileOfId(s: Split, cfg: PointBudgetConfig, decode: seq<byte> -> Position, points: seq<SpoolPoint>, id: TileId)
    returns (i: nat)
    requires cfg.IsValid() && points != [] && AllFinite(Decoded(decode, points))
    requires var plan := PlanFor(s, cfg, Decoded(decode, points), Hull(Decoded(decode, points)));
      exists p :: p in points && PlanRouter(s, plan, decode)(p.source) == id
    ensures var plan := PlanFor(s, cfg, Decoded(decode, points), Hull(Decoded(decode, points)));
      i < |plan.tiles| && plan.tiles[i].id == id
  {
    hide PlanFor, Hull, AllFinite, Router.Route, Router.RoutingOf;
    var positions := Decoded(decode, points);
    var plan := PlanFor(s, cfg, positions, Hull(positions));
    var p :| p in points && PlanRouter(s, plan, decode)(p.source) == id;
    var k :| 0 <= k < |points| && points[k] == p;
    assert positions[k] == decode(p.source);
    i := RoutedToPlan(s, cfg, positions, positions[k]);
  }

  lemma PlannedNotEmpty(s: Split, cfg: PointBudgetConfig, positions: seq<Position>, i: nat)
    requires cfg.IsValid() && positions != [] && i < |PlanFor(s, cfg, positions, Hull(positions)).tiles|
    ensures PlanFor(s, cfg, positions, Hull(positions)).tiles[i].pointCount > 0
  {
    hide Grow, Hull, Depth, Above;
    var cells := Cells(Grow(s, cfg, positions, Place(ROOT, Hull(positions))));
    assert cells[i] in cells;
    CellLaws(s, cfg, positions, Place(ROOT, Hull(positions)), cells[i]);
  }

  // ----- The router's identities can be written

  predicate WithinGrid(id: TileId)
  {
    0 <= id.level <= MAX_DEPTH && 0 <= id.x < Pow2(id.level) && 0 <= id.y < Pow2(id.level)
  }

  lemma {:induction false} RouteFromWithinGrid(s: Split, ids: set<TileId>, p: Position, at: Place)
    requires WithinGrid(at.id)
    ensures var id := Router.RouteFrom(s, ids, p, at); id == NO_TILE || WithinGrid(id)
    decreases MAX_DEPTH - at.id.level
  {
    if !(at.id in ids) && at.id.level < MAX_DEPTH {
      RouteFromWithinGrid(s, ids, p, Step(s, at, p));
    }
  }

  lemma {:induction false} Pow2Grows(m: nat, n: nat)
    requires m <= n
    ensures Pow2(m) <= Pow2(n)
    decreases n
  {
    if m < n {
      Pow2Grows(m, n - 1);
    }
  }

  /** Whatever a point-budget router returns fits the widths of a spool's head. */
  lemma RouteFits(s: Split, r: Router.Routing, p: Position)
    ensures FitsWidths(Router.Route(s, r, p))
  {
    hide Router.RouteFrom, FitsWidths;
    var id := Router.Route(s, r, p);
    SmallNumbersFit(NO_TILE);
    if id != NO_TILE {
      RouteFromWithinGrid(s, Router.Ids(r.tiles), p, Place(ROOT, r.root));
      Pow2Grows(id.level, MAX_DEPTH);
      LargestPow2();
      SmallNumbersFit(id);
    }
  }

  lemma LargestPow2()
    ensures Pow2(MAX_DEPTH) == 0x8000_0000
  {
    assert Pow2(8) == 256 && Pow2(16) == 65536 && Pow2(24) == 0x100_0000;
  }

  lemma SmallNumbersFit(id: TileId)
    requires -1 <= id.level <= MAX_DEPTH && 0 <= id.x <= 0x8000_0000 && 0 <= id.y <= 0x8000_0000
    ensures FitsWidths(id)
  {
    PowersOf256();
    hide Pow256;
  }

  // ----- Columns that belong together

  /** Where each chunk lists the columns it has, as the readers' chunks do, what belongs together is named together. */
  lemma ListedStreamTogether(route: TileSpooling.Router, reference: Reference, stream: seq<Pulled>)
    requires GoodStream(route, reference, stream, AttributesOf(stream)) && HasPoints(stream)
    requires forall c :: c in stream && c.Pulled? && c.data.positions != [] ==> ListsColumns(c.chunk.attributes, c.data)
    ensures NamedTogether(AttributesOf(stream))
  {
    hide GoodPoint, ListsColumns, PointData.IsValid, NamedTogether;
    var c :| c in stream && c.Pulled? && c.data.positions != [];
    assert GoodChunk(route, reference, c, AttributesOf(stream));
    ListedTogether(AttributesOf(stream), c.data);
  }

  /** A chunk that lists red alone, of data with all three colours, is valid; its stream is spooled, but never authored. */
  function RedAlone(position: seq<byte>, value: seq<byte>): Pulled
  {
    var colours := map[Ascii("red") := [value], Ascii("green") := [value], Ascii("blue") := [value]];
    Pulled(PointChunk(1, true, [Attribute(Ascii("red"), 3)]), PointData([position], colours, [], [], []))
  }

  lemma RedAloneSpooled(route: TileSpooling.Router, reference: Reference, position: seq<byte>, value: seq<byte>)
    requires reference(position).Some? && route(position).IsValid()
    ensures GoodChunk(route, reference, RedAlone(position, value), [Attribute(Ascii("red"), 3)])
  {
    var c := RedAlone(position, value);
    ColoursValid(c.data, value);
    RedNotTogether();
    ColourKinds();
    hide Ascii, PointData.IsValid, KnownKind, RedAlone;
    assert c.data.Known(Ascii("red")) == [value];
    assert GoodValue(c.data, c.chunk.attributes[0], 0);
  }

  lemma RedAloneRefused(route: TileSpooling.Router, reference: Reference, memoryLimit: nat,
                        position: seq<byte>, value: seq<byte>)
    requires reference(position).Some? && route(position).IsValid() && route(position).z == 0 && memoryLimit > 0
    ensures var stream := [RedAlone(position, value)];
      Spoolable(stream, reference, route, memoryLimit) && !NamedTogether(AttributesOf(stream))
  {
    var c := RedAlone(position, value);
    RedAloneSpooled(route, reference, position, value);
    RedNotTogether();
    RedSchema();
    hide Ascii, GoodChunk, NamedTogether, Schema.IsValid, WithinLimits, NamesFit;
    assert c in [c] && c.data.positions == [position];
  }

  lemma RedAloneTyped(position: seq<byte>, value: seq<byte>)
    requires |position| == POSITION_SIZE && |value| == 2
    ensures RedAlone(position, value).data.Typed()
  {
    hide PointData.Typed, KnownKind, Ascii;
    var c := RedAlone(position, value);
    ColoursTyped(c.data, value);
  }

  lemma RedSchema()
    ensures var schema := SchemaOf([Attribute(Ascii("red"), 3)]);
      schema.IsValid() && NamesFit(schema.attributes) && WithinLimits(schema)
  {
    RedNotTogether();
    hide Ascii;
    PowersOf256();
  }

  lemma RedNotTogether()
    ensures !NamedTogether([Attribute(Ascii("red"), 3)])
    ensures |Ascii("red")| == 3 && |Ascii("green")| == 5 && |Ascii("blue")| == 4
  {
    assert TOGETHER[1] == ("red", "green");
    assert |Ascii("red")| == 3 && |Ascii("green")| == 5 && |Ascii("blue")| == 4;
    hide Ascii;
    assert [Attribute(Ascii("red"), 3)][0] in [Attribute(Ascii("red"), 3)];
  }

  lemma ColourKinds()
    ensures KnownKind(Ascii("red")) == KnownKind(Ascii("green")) == KnownKind(Ascii("blue")) == Some(3)
  {
  }

  lemma ColoursTyped(data: PointData, value: seq<byte>)
    requires data.columns == map[Ascii("red") := [value], Ascii("green") := [value], Ascii("blue") := [value]]
    requires |value| == 2 && data.extraBytes == [] && forall p :: p in data.positions ==> |p| == POSITION_SIZE
    ensures data.Typed()
  {
    ColourKinds();
    hide KnownKind, Ascii;
  }

  lemma ColoursValid(data: PointData, value: seq<byte>)
    requires data.columns == map[Ascii("red") := [value], Ascii("green") := [value], Ascii("blue") := [value]]
    requires |data.positions| == 1
    requires data.extraByteNames == [] && data.extraBytes == [] && data.extraByteComponentCounts == []
    ensures data.IsValid()
  {
    forall k | 0 <= k < |TOGETHER| ensures data.Together(TOGETHER[k].0, TOGETHER[k].1) {
      assert |Ascii(TOGETHER[k].0)| == |TOGETHER[k].0| && |Ascii(TOGETHER[k].1)| == |TOGETHER[k].1|;
    }
  }
}
