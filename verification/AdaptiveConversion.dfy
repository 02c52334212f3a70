/** The adaptive conversion from end to end: plan a stream, make the tile plan, route the stream by it, and author. */
module AdaptiveConversion {
  import opened Bytes
  import opened TileIds
  import opened Seqs
  import opened SpoolFormat
  import opened Quadtree
  import StreamingPlanner
  import PlanTheorems
  import TilePlan
  import TilePlanBuilder
  import TilePlanTheorems
  import Router
  import Columns
  import opened TileSpooling
  import opened StreamSpooling
  import opened Authoring
  import opened AuthoringTheorems

  /** How the planner sees what is pulled from a stream. */
  function EventOf(decode: seq<byte> -> Position, pulled: Pulled): StreamingPlanner.StreamEvent
  {
    if pulled.Failed? || !DeliveredWell(pulled.chunk, pulled.data) then StreamingPlanner.Failed
    else StreamingPlanner.Chunk(DecodedAll(decode, pulled.data.positions))
  }

  function DecodedAll(decode: seq<byte> -> Position, positions: seq<seq<byte>>): (r: seq<Position>)
    ensures |r| == |positions|
  {
    seq(|positions|, k requires 0 <= k < |positions| => decode(positions[k]))
  }

  function EventsOf(decode: seq<byte> -> Position, stream: seq<Pulled>): (r: seq<StreamingPlanner.StreamEvent>)
    ensures |r| == |stream|
  {
    seq(|stream|, k requires 0 <= k < |stream| => EventOf(decode, stream[k]))
  }

  /** A pass without failures delivers the positions of the stream's points. */
  lemma {:induction false} PassDelivers(decode: seq<byte> -> Position, reference: Reference, stream: seq<Pulled>,
                                        points: seq<SpoolPoint>)
    requires IsStreamOf(reference, stream, points) && StreamingPlanner.Clean(EventsOf(decode, stream))
    ensures StreamingPlanner.Delivered(EventsOf(decode, stream)) == Decoded(decode, points)
  {
    if stream != [] {
      var m := |stream| - 1;
      var before, here :| points == before + here && IsStreamOf(reference, stream[..m], before)
        && ArePointsOf(reference, stream[m], here);
      hide ArePointsOf, EventOf, IsStreamOf, EventsOf, StreamingPlanner.Clean, StreamingPlanner.Delivered, Decoded;
      EventsNext(decode, stream);
      PassDelivers(decode, reference, stream[..m], before);
      ChunkDelivers(decode, reference, stream[m], here);
      DecodedConcat(decode, before, here);
    }
  }

  lemma EventsNext(decode: seq<byte> -> Position, stream: seq<Pulled>)
    requires stream != [] && StreamingPlanner.Clean(EventsOf(decode, stream))
    ensures var last, front := EventOf(decode, stream[|stream| - 1]), EventsOf(decode, stream[..|stream| - 1]);
      && last.Chunk? && StreamingPlanner.Clean(front)
      && StreamingPlanner.Delivered(EventsOf(decode, stream)) == StreamingPlanner.Delivered(front) + last.positions
  {
    hide EventOf;
    var events, m := EventsOf(decode, stream), |stream| - 1;
    assert events[..m] == EventsOf(decode, stream[..m]);
    assert events[m] in events;
    assert forall e :: e in events[..m] ==> e in events;
  }

  lemma DecodedConcat(decode: seq<byte> -> Position, a: seq<SpoolPoint>, b: seq<SpoolPoint>)
    ensures Decoded(decode, a + b) == Decoded(decode, a) + Decoded(decode, b)
  {
  }

  lemma ChunkDelivers(decode: seq<byte> -> Position, reference: Reference, pulled: Pulled, here: seq<SpoolPoint>)
    requires ArePointsOf(reference, pulled, here) && EventOf(decode, pulled).Chunk?
    ensures EventOf(decode, pulled).positions == Decoded(decode, here)
  {
    forall k: nat | k < |here| ensures DecodedAll(decode, pulled.data.positions)[k] == Decoded(decode, here)[k] {
      assert IsPointAt(reference, pulled.data, pulled.chunk.attributes, k, here[k]);
    }
  }

  /** The router built from a tile plan. */
  function TilePlanRouter(s: Split, plan: TilePlan.TilePlan, decode: seq<byte> -> Position): TileSpooling.Router
  {
    RouterOf(s, Router.RoutingOf(Router.LeafTiles(plan.nodes)), decode)
  }

  /** A stream that only the system can keep from being spooled by its plan: the planner accepts it, its chunks and points
      are good, it has points, and its attributes are within the limits of a spool's reader. */
  ghost predicate Convertible(s: Split, cfg: PointBudgetConfig, stream: seq<Pulled>, decode: seq<byte> -> Position,
                              reference: Reference, memoryLimit: nat)
  {
    && var pass := StreamingPlanner.Opened(EventsOf(decode, stream));
    && StreamingPlanner.StreamOutcome(s, cfg, pass, pass).1
    && memoryLimit > 0 && HasPoints(stream) && GoodStream(AnyTile(), reference, stream, AttributesOf(stream))
    && WithinLimits(SchemaOf(AttributesOf(stream)))
  }

  /** Any position has a tile. */
  function AnyTile(): TileSpooling.Router { (v: seq<byte>) => ROOT }

  /** Converts a stream that delivers the same points each time it is opened. */
  method PlanAndAuthor(s: Split, cfg: PointBudgetConfig, stream: seq<Pulled>, decode: seq<byte> -> Position,
                       reference: Reference, memoryLimit: nat)
    returns (ok: bool, trouble: bool, plan: PointBudgetPlan, tiles: seq<TileAsset>, manifest: seq<ManifestEntry>)
    requires forall c :: c in stream && c.Pulled? ==> c.data.Typed()
    ensures ok ==> PlanIsAuthored(cfg, plan, tiles, manifest)
    ensures ok ==> exists points, attributes :: IsStreamOf(reference, stream, points)
                     && Authored(PlanRouter(s, plan, decode), attributes, points, tiles, manifest)
    ensures Convertible(s, cfg, stream, decode, reference, memoryLimit) && !trouble ==>
              (ok <==> Columns.NamedTogether(AttributesOf(stream)))
  {
    hide IsStreamOf, Authored, FitsWidths, Columns.PointData.Typed, Router.Route, Router.RoutingOf, Router.LeafTiles,
         GoodStream, WithinLimits, HasPoints, Spoolable, Columns.NamedTogether,
         StreamingPlanner.StreamOutcome, TilePlanTheorems.OneTop;
    tiles, manifest, trouble := [], [], false;
    var pass := StreamingPlanner.Opened(EventsOf(decode, stream));
    plan, ok := StreamingPlanner.BuildPointBudgetPlan(s, pass, pass, cfg);
    if !ok {
      return;
    }
    if Convertible(s, cfg, stream, decode, reference, memoryLimit) {
      ConvertiblePlanned(s, cfg, stream, decode, reference, memoryLimit, plan);
    }
    var tilePlan;
    tilePlan, ok := TilePlanTheorems.BuildTilePlan(plan.tiles);
    if !ok {
      return;
    }
    if Convertible(s, cfg, stream, decode, reference, memoryLimit) {
      ConvertibleSpoolable(s, cfg, stream, decode, reference, memoryLimit, plan, tilePlan);
    }
    var route := TilePlanRouter(s, tilePlan, decode);
    forall v ensures FitsWidths(route(v)) {
      RouteFits(s, Router.RoutingOf(Router.LeafTiles(tilePlan.nodes)), decode(v));
    }
    var attributes, reported;
    ok, trouble, attributes, tiles, manifest, reported := AuthorFromStream(stream, reference, route, memoryLimit);
    if ok {
      ghost var points :| IsStreamOf(reference, stream, points) && Authored(route, attributes, points, tiles, manifest)
        && ReportsBounded(reported, points, memoryLimit);
      PlannedAndAuthored(s, cfg, stream, decode, reference, points, attributes, plan, tilePlan, tiles, manifest);
    }
  }

  lemma {:induction false} PositionDelivered(decode: seq<byte> -> Position, stream: seq<Pulled>, c: Pulled, k: nat)
    requires StreamingPlanner.Clean(EventsOf(decode, stream)) && c in stream && c.Pulled? && k < |c.data.positions|
    ensures decode(c.data.positions[k]) in StreamingPlanner.Delivered(EventsOf(decode, stream))
  {
    hide StreamingPlanner.Clean, StreamingPlanner.Delivered;
    var m := |stream| - 1;
    EventsNext(decode, stream);
    if c == stream[m] {
      assert EventOf(decode, c).positions[k] == decode(c.data.positions[k]);
    } else {
      assert stream == stream[..m] + [stream[m]];
      PositionDelivered(decode, stream[..m], c, k);
    }
  }

  /** What the planner makes of a convertible stream. */
  lemma PlanOfConvertible(s: Split, cfg: PointBudgetConfig, stream: seq<Pulled>, decode: seq<byte> -> Position,
                          reference: Reference, memoryLimit: nat, plan: PointBudgetPlan)
    requires Convertible(s, cfg, stream, decode, reference, memoryLimit)
    requires var pass := StreamingPlanner.Opened(EventsOf(decode, stream));
      plan == StreamingPlanner.StreamOutcome(s, cfg, pass, pass).0
    ensures var positions := StreamingPlanner.Delivered(EventsOf(decode, stream));
      && StreamingPlanner.Clean(EventsOf(decode, stream)) && cfg.IsValid() && positions != [] && AllFinite(positions)
      && |positions| <= SIZE_MAX && plan == PlanFor(s, cfg, positions, Hull(positions))
  {
    hide PlanFor, Hull, EventsOf, GoodStream, StreamingPlanner.Clean, StreamingPlanner.Delivered;
    var c :| c in stream && c.Pulled? && c.data.positions != [];
    PositionDelivered(decode, stream, c, 0);
  }

  lemma ConvertiblePlanned(s: Split, cfg: PointBudgetConfig, stream: seq<Pulled>, decode: seq<byte> -> Position,
                           reference: Reference, memoryLimit: nat, plan: PointBudgetPlan)
    requires Convertible(s, cfg, stream, decode, reference, memoryLimit)
    requires var pass := StreamingPlanner.Opened(EventsOf(decode, stream));
      plan == StreamingPlanner.StreamOutcome(s, cfg, pass, pass).0
    ensures TilePlanBuilder.AllValid(plan.tiles) && TilePlanTheorems.NoTileAbove(plan.tiles)
    ensures TilePlanTheorems.OneTop(plan.tiles)
  {
    hide PlanFor, Hull, Convertible, TilePlanTheorems.OneTop, TilePlanTheorems.NoTileAbove, TilePlanBuilder.AllValid;
    PlanOfConvertible(s, cfg, stream, decode, reference, memoryLimit, plan);
    TilePlanTheorems.PlannedTilesBuild(s, cfg, StreamingPlanner.Delivered(EventsOf(decode, stream)), []);
  }

  /** Every position of a convertible stream has a tile of the plan. */
  lemma PositionRouted(s: Split, cfg: PointBudgetConfig, stream: seq<Pulled>, decode: seq<byte> -> Position,
                       reference: Reference, memoryLimit: nat, plan: PointBudgetPlan, tilePlan: TilePlan.TilePlan,
                       c: Pulled, k: nat)
    requires Convertible(s, cfg, stream, decode, reference, memoryLimit)
    requires var pass := StreamingPlanner.Opened(EventsOf(decode, stream));
      plan == StreamingPlanner.StreamOutcome(s, cfg, pass, pass).0
    requires TilePlanTheorems.Built(plan.tiles, tilePlan.nodes)
    requires c in stream && c.Pulled? && k < |c.data.positions|
    ensures var id := TilePlanRouter(s, tilePlan, decode)(c.data.positions[k]); id.IsValid() && id.z == 0
  {
    hide PlanFor, Hull, Convertible, StreamingPlanner.StreamOutcome, TilePlanTheorems.Built, Router.Route, Router.RoutingOf,
         Router.LeafTiles;
    var positions := StreamingPlanner.Delivered(EventsOf(decode, stream));
    PlanOfConvertible(s, cfg, stream, decode, reference, memoryLimit, plan);
    PositionDelivered(decode, stream, c, k);
    TilePlanTheorems.PlannedTilesBuild(s, cfg, positions, tilePlan.nodes);
    var i := RoutedToPlan(s, cfg, positions, decode(c.data.positions[k]));
    PlanTheorems.PlanTilesLawful(s, cfg, positions);
    assert PlanTheorems.LawfulTile(cfg, plan.tiles[i]);
  }

  lemma ConvertibleSpoolable(s: Split, cfg: PointBudgetConfig, stream: seq<Pulled>, decode: seq<byte> -> Position,
                              reference: Reference, memoryLimit: nat, plan: PointBudgetPlan, tilePlan: TilePlan.TilePlan)
    requires Convertible(s, cfg, stream, decode, reference, memoryLimit)
    requires var pass := StreamingPlanner.Opened(EventsOf(decode, stream));
      plan == StreamingPlanner.StreamOutcome(s, cfg, pass, pass).0
    requires TilePlanTheorems.Built(plan.tiles, tilePlan.nodes)
    ensures Spoolable(stream, reference, TilePlanRouter(s, tilePlan, decode), memoryLimit)
  {
    hide StreamingPlanner.StreamOutcome, TilePlanTheorems.Built, TilePlanRouter, EventsOf, GoodValue, HasPoints, WithinLimits;
    var route, attributes := TilePlanRouter(s, tilePlan, decode), AttributesOf(stream);
    forall c | c in stream ensures GoodChunk(route, reference, c, attributes) {
      assert GoodChunk(AnyTile(), reference, c, attributes);
      forall k: nat | k < |c.data.positions| ensures GoodPoint(route, reference, c.data, attributes, k) {
        assert GoodPoint(AnyTile(), reference, c.data, attributes, k);
        PositionRouted(s, cfg, stream, decode, reference, memoryLimit, plan, tilePlan, c, k);
      }
    }
    forall c, v | c in stream && c.Pulled? && v in c.data.positions ensures route(v).z == 0 {
      var k :| 0 <= k < |c.data.positions| && c.data.positions[k] == v;
      PositionRouted(s, cfg, stream, decode, reference, memoryLimit, plan, tilePlan, c, k);
    }
  }

  /** The manifest is the plan: the same tiles with the same counts, which add up to the points; and every tile asset
      has as many points as the plan counted. */
  ghost predicate PlanIsAuthored(cfg: PointBudgetConfig, plan: PointBudgetPlan, tiles: seq<TileAsset>,
                                 manifest: seq<ManifestEntry>)
  {
    && (forall id, n :: ManifestEntry(id, n) in manifest <==> IsPlanned(plan, id, n))
    && Sum(CountsOf(manifest)) == plan.pointCount
    && |tiles| == |manifest| && Distinct(IdsOf(manifest))
    && forall i :: 0 <= i < |manifest| ==> manifest[i] == ManifestEntry(tiles[i].id, |tiles[i].data.positions|)
                                           && manifest[i].pointCount <= cfg.maxPointsPerTile
  }

  ghost predicate IsPlanned(plan: PointBudgetPlan, id: TileId, n: nat)
  {
    exists t :: t in plan.tiles && t.id == id && t.pointCount == n
  }

  lemma PlannedAndAuthored(s: Split, cfg: PointBudgetConfig, stream: seq<Pulled>, decode: seq<byte> -> Position,
                           reference: Reference, points: seq<SpoolPoint>, attributes: seq<Attribute>,
                           plan: PointBudgetPlan, tilePlan: TilePlan.TilePlan, tiles: seq<TileAsset>,
                           manifest: seq<ManifestEntry>)
    requires var pass := StreamingPlanner.Opened(EventsOf(decode, stream));
      (plan, true) == StreamingPlanner.StreamOutcome(s, cfg, pass, pass)
    requires TilePlanTheorems.Built(plan.tiles, tilePlan.nodes) && IsStreamOf(reference, stream, points)
    requires Authored(TilePlanRouter(s, tilePlan, decode), attributes, points, tiles, manifest)
    ensures Authored(PlanRouter(s, plan, decode), attributes, points, tiles, manifest)
    ensures PlanIsAuthored(cfg, plan, tiles, manifest)
  {
    hide IsStreamOf, Authored, PlanFor, Hull, Router.RoutingOf, Router.LeafTiles, TilePlanTheorems.Built, Decoded, EventsOf,
         RouterOf, Sum, StreamingPlanner.Delivered;
    PassDelivers(decode, reference, stream, points);
    var positions := Decoded(decode, points);
    AuthoredNotEmpty(TilePlanRouter(s, tilePlan, decode), attributes, points, tiles, manifest);
    assert plan == PlanFor(s, cfg, positions, Hull(positions));
    TilePlanTheorems.PlannedTilesBuild(s, cfg, positions, tilePlan.nodes);
    assert TilePlanRouter(s, tilePlan, decode) == PlanRouter(s, plan, decode);
    forall id, n ensures ManifestEntry(id, n) in manifest <==> IsPlanned(plan, id, n) {
      ManifestIsPlan(s, cfg, decode, attributes, points, tiles, manifest, id, n);
    }
    ManifestConserves(PlanRouter(s, plan, decode), attributes, points, tiles, manifest);
    PlannedPointCount(s, cfg, positions);
    AuthoredEntries(PlanRouter(s, plan, decode), attributes, points, tiles, manifest);
    forall i | 0 <= i < |manifest| ensures manifest[i].pointCount <= cfg.maxPointsPerTile {
      assert manifest[i] in manifest && manifest[i] == ManifestEntry(manifest[i].id, manifest[i].pointCount);
      assert IsPlanned(plan, manifest[i].id, manifest[i].pointCount);
    }
  }

  lemma PlannedPointCount(s: Split, cfg: PointBudgetConfig, positions: seq<Position>)
    requires positions != []
    ensures PlanFor(s, cfg, positions, Hull(positions)).pointCount == |positions|
  {
    hide Grow, Hull;
  }

  lemma AuthoredNotEmpty(route: TileSpooling.Router, attributes: seq<Attribute>, points: seq<SpoolPoint>,
                         tiles: seq<TileAsset>, manifest: seq<ManifestEntry>)
    requires Authored(route, attributes, points, tiles, manifest)
    ensures points != []
  {
    hide Routed, Holds;
    assert AuthoredTile(route, attributes, points, tiles[0], manifest[0]);
    HeldPointsRouted(route, attributes, points, tiles[0].id, tiles[0].data);
  }

  lemma AuthoredEntries(route: TileSpooling.Router, attributes: seq<Attribute>, points: seq<SpoolPoint>,
                        tiles: seq<TileAsset>, manifest: seq<ManifestEntry>)
    requires Authored(route, attributes, points, tiles, manifest)
    ensures |tiles| == |manifest| && Distinct(IdsOf(manifest))
    ensures forall i :: 0 <= i < |manifest| ==> manifest[i] == ManifestEntry(tiles[i].id, |tiles[i].data.positions|)
  {
    hide Routed;
    forall i | 0 <= i < |manifest|
      ensures manifest[i] == ManifestEntry(tiles[i].id, |tiles[i].data.positions|)
    {
      assert AuthoredTile(route, attributes, points, tiles[i], manifest[i]);
    }
  }
}
