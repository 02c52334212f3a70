/** Authoring a stream as one asset for each tile: spool the points, read every spool back, and list the tiles. */
module Authoring {
  import opened Options
  import opened Bytes
  import opened TileIds
  import opened Seqs
  import opened ExtraByteNames
  import opened SpoolFormat
  import opened SpoolOutcome
  import opened Spool
  import opened Columns
  import opened TileSpooling
  import opened StreamSpooling

  datatype TileAsset = TileAsset(id: TileId, data: PointData)

  datatype ManifestEntry = ManifestEntry(id: TileId, pointCount: nat)

  // ----- Closing the spools

  /** The `i`th file is a closed spool of the points routed to the tile. */
  ghost predicate Closed(spools: TileSpools, i: nat)
    requires i < |spools.writers|
    reads spools`ids, spools`writers, spools`streamed, spools`schemas, spools.writers[i]
  {
    var w := spools.writers[i];
    && |spools.ids| == |spools.writers| == |spools.schemas| && w.schema == spools.schemas[i]
    && Writable(spools.ids[i], w.schema)
    && AllConform(Routed(spools.route, spools.streamed, spools.ids[i]), w.schema)
    && w.file == SpoolBytes(spools.ids[i], w.schema, Routed(spools.route, spools.streamed, spools.ids[i]))
  }

  method CloseSpools(spools: TileSpools) returns (ok: bool)
    requires spools.Valid()
    modifies spools`trouble, spools.writers
    ensures ok ==> forall i: nat :: i < |spools.writers| ==> Closed(spools, i)
    ensures spools.trouble == (old(spools.trouble) || !ok)
  {
    hide TileSpoolWriter.Accurate, Routed, Writable, SpoolBytes;
    var i := 0;
    while i < |spools.writers|
      invariant 0 <= i <= |spools.writers| == |spools.ids|
      invariant forall j: nat :: j < i ==> Closed(spools, j)
      invariant forall j: nat :: i <= j < |spools.writers| ==> spools.Keeps(j)
      invariant spools.trouble == old(spools.trouble)
    {
      ok := spools.Ask();
      if !ok {
        return;
      }
      assert spools.Keeps(i);
      label before:
      ok := spools.writers[i].Close();
      if !ok {
        spools.trouble := true;
        return;
      }
      forall j: nat | j < |spools.writers|
        ensures if j <= i then Closed(spools, j) else spools.Keeps(j)
      {
        assert j < i ==> old@before(Closed(spools, j));
        assert j >= i ==> old@before(spools.Keeps(j));
      }
      i := i + 1;
    }
    ok := true;
  }

  // ----- Reading one spool back

  /** The tile read from a spool. */
  ghost predicate ReadBackAs(contents: Option<seq<byte>>, id: TileId, attributes: seq<Attribute>, data: PointData)
  {
    && contents.Some? && ReadOutcome(contents.value).Read?
    && var o := ReadOutcome(contents.value);
    && o.complete && o.points != [] && o.id == id && o.schema.attributes == attributes
    && Rebuilt(data, attributes, o.points) && KindsFit(attributes) && data.IsValid()
  }

  /** A spool that only a stop can keep from being rebuilt. */
  ghost predicate CanRebuild(contents: Option<seq<byte>>, id: TileId, attributes: seq<Attribute>)
  {
    && contents.Some? && ReadOutcome(contents.value).Read? && KindsFit(attributes) && NamedTogether(attributes)
    && var o := ReadOutcome(contents.value);
    && o.complete && o.points != [] && o.id == id && o.schema.attributes == attributes
  }

  lemma FitKinds(attributes: seq<Attribute>, p: SpoolPoint)
    requires ValuesMatch(p.attributes, attributes) && AllFit(attributes, p.attributes)
    ensures KindsFit(attributes)
  {
    hide Fits;
    forall a | a in attributes ensures Fits(a.name, a.kind) {
      var i :| 0 <= i < |attributes| && attributes[i] == a;
      assert Fits(attributes[i].name, p.attributes[i].kind);
    }
  }

  method TakePoint(data: PointData, attributes: seq<Attribute>, point: SpoolPoint, ghost points: seq<SpoolPoint>,
                   ghost k: nat)
    returns (ok: bool, result: PointData)
    requires UniqueNames(attributes) && k < |points| && Rebuilt(data, attributes, points[..k]) && point == points[k]
    requires forall p :: p in points ==> Sized(p) && ValuesMatch(p.attributes, attributes)
    ensures ok ==> Rebuilt(result, attributes, points[..k + 1]) && |result.positions| == k + 1 && KindsFit(attributes)
    ensures KindsFit(attributes) ==> ok
  {
    hide Rebuilt, Sized, UniqueNames, AllFit, KindsFit;
    assert points[..k + 1] == points[..k] + [points[k]];
    assert forall p :: p in points[..k + 1] ==> p in points;
    ok, result := AppendPoint(data, attributes, point, points[..k]);
    if ok {
      FitKinds(attributes, point);
      assert points[..k + 1] == points[..k] + [point];
      PositionsCounted(result, attributes, points[..k + 1]);
    }
  }

  method RebuildTile(contents: Option<seq<byte>>, id: TileId, attributes: seq<Attribute>)
    returns (ok: bool, stopped: bool, tile: TileAsset)
    requires UniqueNames(attributes)
    ensures ok ==> ReadBackAs(contents, id, attributes, tile.data) && tile.id == id && NamedTogether(attributes)
    ensures !ok && !stopped ==> !CanRebuild(contents, id, attributes)
  {
    stopped := false;
    KindsPrepare(attributes);
    hide ReadOutcome, TileSpoolReader.Placed, UniqueNames, Rebuilt, KindsFit, Prepared, ValuesMatch, Sized, NamedTogether,
         PointData.IsValid;
    var reader := new TileSpoolReader();
    var tileId, tileSchema, data;
    tile := TileAsset(id, NO_DATA);
    ok, tileId, tileSchema := reader.Open(contents);
    if !ok || tileId != id || attributes != tileSchema.attributes {
      return false, stopped, tile;
    }
    ok, data := PrepareData(tileSchema.attributes);
    if !ok {
      return;
    }
    NothingTaken(data, attributes);
    ghost var o := ReadOutcome(contents.value);
    ReadConforms(contents.value);
    ghost var k := 0;
    assert o.points[..0] == [];
    var got, point := reader.ReadNext();
    while got
      invariant reader.Valid() && reader.ready && reader.file == contents.value
      invariant reader.taken == k + (if got then 1 else 0) <= |o.points|
      invariant Rebuilt(data, attributes, o.points[..k]) && |data.positions| == k && (k > 0 ==> KindsFit(attributes))
      invariant got ==> point == o.points[k]
      invariant !stopped
      invariant !got ==> reader.finished && k == |o.points|
      invariant reader.complete <==> reader.finished && o.complete
      decreases |o.points| - k, got
    {
      stopped := *;
      if stopped {
        return false, stopped, tile;
      }
      ok, data := TakePoint(data, attributes, point, o.points, k);
      if !ok {
        return;
      }
      k := k + 1;
      got, point := reader.ReadNext();
    }
    if !reader.IsComplete() || data.positions == [] {
      return false, stopped, tile;
    }
    assert o.points[..k] == o.points;
    RebuiltValid(data, attributes, o.points);
    if !data.IsValid() {
      return false, stopped, tile;
    }
    tile := TileAsset(id, data);
  }

  lemma NothingTaken(data: PointData, attributes: seq<Attribute>)
    requires Prepared(attributes, data)
    ensures Rebuilt(data, attributes, []) && data.positions == []
  {
    PreparedRebuilt(attributes, data);
  }

  lemma PointConforms(points: seq<SpoolPoint>, k: nat, schema: Schema)
    requires AllConform(points, schema) && k < |points|
    ensures Conforms(points[k], schema)
    ensures Sized(points[k]) && ValuesMatch(points[k].attributes, schema.attributes)
  {
    assert points[k] in points;
  }

  lemma PositionsCounted(data: PointData, attributes: seq<Attribute>, points: seq<SpoolPoint>)
    requires Rebuilt(data, attributes, points)
    ensures |data.positions| == |points|
  {
  }

  // ----- All tiles

  /** The tile holds the points, in their order: their positions, and every attribute of each. */
  ghost predicate Holds(attributes: seq<Attribute>, points: seq<SpoolPoint>, data: PointData)
  {
    && points != [] && data.positions == SourcesOf(points) && data.IsValid()
    && forall i: nat, k: nat :: i < |attributes| && k < |points| ==> HoldsValue(attributes, points, data, i, k)
  }

  ghost predicate HoldsValue(attributes: seq<Attribute>, points: seq<SpoolPoint>, data: PointData, i: nat, k: nat)
    requires i < |attributes| && k < |points| && data.Counted()
  {
    i < |points[k].attributes| && AttributeValue(data, attributes[i].name, k) == Some(points[k].attributes[i])
  }

  /** The tiles are the points of the stream, each tile having those routed to it; the manifest counts them. */
  ghost predicate Authored(route: Router, attributes: seq<Attribute>, points: seq<SpoolPoint>, tiles: seq<TileAsset>,
                           manifest: seq<ManifestEntry>)
  {
    && |manifest| == |tiles| > 0 && Covered(route, points, IdsOf(manifest)) && Distinct(IdsOf(manifest))
    && forall i :: 0 <= i < |tiles| ==> AuthoredTile(route, attributes, points, tiles[i], manifest[i])
  }

  ghost predicate AuthoredTile(route: Router, attributes: seq<Attribute>, points: seq<SpoolPoint>, tile: TileAsset,
                               entry: ManifestEntry)
  {
    && entry == ManifestEntry(tile.id, |Routed(route, points, tile.id)|)
    && Holds(attributes, Routed(route, points, tile.id), tile.data)
  }

  function IdsOf(manifest: seq<ManifestEntry>): (r: seq<TileId>)
    ensures |r| == |manifest| && forall i :: 0 <= i < |r| ==> r[i] == manifest[i].id
  {
    seq(|manifest|, i requires 0 <= i < |manifest| => manifest[i].id)
  }

  /** What is read from a closed spool is the tile's points. */
  lemma TileReadBack(route: Router, points: seq<SpoolPoint>, id: TileId, schema: Schema, contents: Option<seq<byte>>,
                     attributes: seq<Attribute>, tile: TileAsset)
    requires Writable(id, schema) && AllConform(Routed(route, points, id), schema)
    requires contents.Some? ==> contents.value == SpoolBytes(id, schema, Routed(route, points, id))
    requires ReadBackAs(contents, id, attributes, tile.data) && tile.id == id
    requires points != [] ==> Readable(attributes)
    ensures AuthoredTile(route, attributes, points, tile, ManifestEntry(id, |tile.data.positions|))
  {
    hide ReadOutcome, SpoolBytes, Writable, Conforms, Rebuilt, KindsFit, Readable, Routed, WithinLimits, AttributeValue;
    var mine := Routed(route, points, id);
    SpoolRoundTrip(id, schema, mine);
    RoutedFewer(route, points, id);
    PositionsCounted(tile.data, attributes, mine);
    ReadPositions(tile.data, attributes, mine);
    forall p | p in mine ensures ValuesMatch(p.attributes, attributes) {
      var k :| 0 <= k < |mine| && mine[k] == p;
      PointConforms(mine, k, schema);
    }
    forall i: nat, k: nat | i < |attributes| && k < |mine|
      ensures tile.data.Counted() && HoldsValue(attributes, mine, tile.data, i, k)
    {
      assert mine[k] in mine;
      RebuiltValues(tile.data, attributes, mine, i, k);
    }
  }

  lemma RoutedFewer(route: Router, points: seq<SpoolPoint>, id: TileId)
    ensures points == [] ==> Routed(route, points, id) == []
  {
  }

  lemma ReadPositions(data: PointData, attributes: seq<Attribute>, points: seq<SpoolPoint>)
    requires Rebuilt(data, attributes, points)
    ensures data.positions == SourcesOf(points) && data.Counted()
  {
  }

  ghost predicate FileGood(spools: TileSpools, i: nat, attributes: seq<Attribute>)
    requires i < |spools.writers| && i < |spools.ids|
    reads spools, spools.writers[i]
  {
    CanRebuild(Some(spools.writers[i].file), spools.ids[i], attributes)
  }

  lemma KindsPrepare(attributes: seq<Attribute>)
    ensures KindsFit(attributes) ==> forall a :: a in attributes && KnownKind(a.name).None? ==> IsFloats(a.kind)
  {
    hide KnownKind;
  }

  /** Reads the `i`th tile back. */
  method ReadTile(spools: TileSpools, i: nat, attributes: seq<Attribute>) returns (ok: bool, tile: TileAsset)
    requires i < |spools.writers| && |spools.ids| == |spools.writers| && Closed(spools, i)
    requires UniqueNames(attributes) && (spools.streamed != [] ==> Readable(attributes))
    modifies spools`trouble
    ensures ok ==> spools.trouble == old(spools.trouble) && tile.id == spools.ids[i]
    ensures ok ==> AuthoredTile(spools.route, attributes, spools.streamed, tile, ManifestEntry(tile.id, |tile.data.positions|))
    ensures ok ==> NamedTogether(attributes)
    ensures old(spools.trouble) ==> spools.trouble
    ensures !ok && !spools.trouble ==> !FileGood(spools, i, attributes)
  {
    hide NamedTogether, Routed, Writable, SpoolBytes, Conforms, AuthoredTile, ReadBackAs, CanRebuild, Readable, UniqueNames;
    tile := TileAsset(spools.ids[i], NO_DATA);
    ok := spools.Ask();
    if !ok {
      return;
    }
    var contents := Some(spools.writers[i].file);
    var stopped;
    ok, stopped, tile := RebuildTile(contents, spools.ids[i], attributes);
    if !ok {
      spools.trouble := spools.trouble || stopped;
      return;
    }
    TileReadBack(spools.route, spools.streamed, spools.ids[i], spools.writers[i].schema, contents, attributes, tile);
  }

  method ReadTiles(spools: TileSpools, schema: Schema) returns (ok: bool, tiles: seq<TileAsset>, manifest: seq<ManifestEntry>)
    requires |spools.ids| == |spools.writers| && Distinct(spools.ids)
    requires Covered(spools.route, spools.streamed, spools.ids)
    requires forall i: nat :: i < |spools.writers| ==> Closed(spools, i)
    requires SchemaHolds(schema, spools.streamed) && (spools.streamed == [] ==> spools.writers == [])
    modifies spools`trouble
    ensures old(spools.trouble) ==> spools.trouble
    ensures !ok && !spools.trouble ==> exists i: nat :: i < |spools.writers| && !FileGood(spools, i, schema.attributes)
    ensures ok && spools.writers != [] ==> NamedTogether(schema.attributes)
    ensures ok && spools.writers != [] ==> Authored(spools.route, schema.attributes, spools.streamed, tiles, manifest)
  {
    hide NamedTogether, Closed, AuthoredTile, FileGood, Routed;
    tiles, manifest := [], [];
    var i := 0;
    while i < |spools.writers|
      invariant 0 <= i == |tiles| == |manifest| <= |spools.writers|
      invariant IdsOf(manifest) == spools.ids[..i] && spools.trouble == old(spools.trouble)
      invariant i > 0 ==> NamedTogether(schema.attributes)
      invariant forall j: nat :: j < |spools.writers| ==> Closed(spools, j)
      invariant forall j :: 0 <= j < i ==>
        AuthoredTile(spools.route, schema.attributes, spools.streamed, tiles[j], manifest[j])
    {
      var tile;
      ok, tile := ReadTile(spools, i, schema.attributes);
      if !ok {
        return;
      }
      tiles := tiles + [tile];
      manifest := manifest + [ManifestEntry(tile.id, |tile.data.positions|)];
      assert spools.ids[..i + 1] == spools.ids[..i] + [spools.ids[i]];
      i := i + 1;
    }
    assert spools.ids[..i] == spools.ids;
    ok := true;
  }

  /** The attributes of a stream, if all its chunks have the same. */
  function AttributesOf(stream: seq<Pulled>): seq<Attribute>
  {
    if stream != [] && stream[0].Pulled? then stream[0].chunk.attributes else []
  }

  /** A stream with points that only the system can keep from being spooled and read back: its chunks and points are good,
      its tiles have no depth, and its attributes are within the limits of a spool's reader. */
  ghost predicate Spoolable(stream: seq<Pulled>, reference: Reference, route: Router, memoryLimit: nat)
  {
    && memoryLimit > 0 && GoodStream(route, reference, stream, AttributesOf(stream))
    && WithinLimits(SchemaOf(AttributesOf(stream))) && HasPoints(stream) && Flat(route, stream)
  }

  ghost predicate HasPoints(stream: seq<Pulled>)
  {
    exists c :: c in stream && c.Pulled? && c.data.positions != []
  }

  ghost predicate Flat(route: Router, stream: seq<Pulled>)
  {
    forall c, v :: c in stream && c.Pulled? && v in c.data.positions ==> route(v).z == 0
  }

  /** Every point has its source position from some chunk. */
  lemma {:induction false} SourceInStream(reference: Reference, stream: seq<Pulled>, points: seq<SpoolPoint>, p: SpoolPoint)
    returns (c: Pulled, k: nat)
    requires IsStreamOf(reference, stream, points) && p in points
    ensures c in stream && c.Pulled? && k < |c.data.positions| && c.data.positions[k] == p.source
  {
    hide ArePointsOf;
    var m := |stream| - 1;
    var before, here :| points == before + here && IsStreamOf(reference, stream[..m], before)
      && ArePointsOf(reference, stream[m], here);
    if p in before {
      c, k := SourceInStream(reference, stream[..m], before, p);
    } else {
      c := stream[m];
      k :| 0 <= k < |here| && here[k] == p;
      PointSource(reference, c, here, k);
    }
  }

  lemma PointSource(reference: Reference, c: Pulled, here: seq<SpoolPoint>, k: nat)
    requires ArePointsOf(reference, c, here) && k < |here|
    ensures c.Pulled? && k < |c.data.positions| && c.data.positions[k] == here[k].source
  {
    assert IsPointAt(reference, c.data, c.chunk.attributes, k, here[k]);
  }

  lemma {:induction false} PointsOfStream(reference: Reference, stream: seq<Pulled>, points: seq<SpoolPoint>, c: Pulled)
    requires IsStreamOf(reference, stream, points) && c in stream && c.Pulled? && c.data.positions != []
    ensures points != []
  {
    var m := |stream| - 1;
    var before, here :| points == before + here && IsStreamOf(reference, stream[..m], before)
      && ArePointsOf(reference, stream[m], here);
    if c != stream[m] {
      assert stream == stream[..m] + [stream[m]];
      PointsOfStream(reference, stream[..m], before, c);
    }
  }

  /** Values that are there have the types that columns are rebuilt with. */
  lemma GoodKinds(route: Router, reference: Reference, data: PointData, attributes: seq<Attribute>, index: nat)
    requires data.Counted() && index < |data.positions| && GoodPoint(route, reference, data, attributes, index)
    ensures KindsFit(attributes)
  {
    hide KnownKind, NormalNames, IndexOf, Times;
    forall a | a in attributes ensures Fits(a.name, a.kind) {
      var i :| 0 <= i < |attributes| && attributes[i] == a;
      assert GoodValue(data, attributes[i], index);
    }
  }

  /** The files of such a stream can be rebuilt. */
  lemma FilesGood(spools: TileSpools, reference: Reference, stream: seq<Pulled>, i: nat)
    requires i < |spools.writers| && |spools.ids| == |spools.writers| && Closed(spools, i)
    requires Spoolable(stream, reference, spools.route, spools.memoryLimit) && NamedTogether(AttributesOf(stream))
    requires spools.Uniform(SchemaOf(AttributesOf(stream))) && IsStreamOf(reference, stream, spools.streamed)
    requires NoneEmpty(spools.route, spools.streamed, spools.ids)
    ensures FileGood(spools, i, AttributesOf(stream))
  {
    hide IsStreamOf, Writable, SpoolBytes, ReadOutcome, Conforms, GoodPoint, KindsFit, Filter;
    var id, attributes := spools.ids[i], AttributesOf(stream);
    var mine := Routed(spools.route, spools.streamed, id);
    assert spools.schemas[i] in spools.schemas;
    SpoolRoundTrip(id, SchemaOf(attributes), mine);
    assert mine[0] in mine;
    FilterMember((q: SpoolPoint) => RoutesTo(spools.route, id, q), spools.streamed, mine[0]);
    var c, k := SourceInStream(reference, stream, spools.streamed, mine[0]);
    assert GoodChunk(spools.route, reference, c, attributes);
    GoodKinds(spools.route, reference, c.data, attributes, k);
    assert c.data.positions[k] in c.data.positions;
  }

  /** Authors a whole stream. */
  method AuthorFromStream(stream: seq<Pulled>, reference: Reference, route: Router, memoryLimit: nat)
    returns (ok: bool, trouble: bool, attributes: seq<Attribute>, tiles: seq<TileAsset>, manifest: seq<ManifestEntry>,
             reported: seq<nat>)
    requires forall position :: FitsWidths(route(position))
    requires forall c :: c in stream && c.Pulled? ==> c.data.Typed()
    ensures ok ==> AuthoredFrom(stream, reference, route, memoryLimit, attributes, tiles, manifest, reported)
    ensures ok ==> NamedTogether(attributes)
    ensures Spoolable(stream, reference, route, memoryLimit) && !trouble ==>
              (ok <==> NamedTogether(AttributesOf(stream)))
  {
    hide IsStreamOf, FitsWidths, PointData.Typed, Authored, TileSpools.Keeps, GoodStream, FileGood, Closed, WithinLimits,
         NoneEmpty, TileSpools.Uniform, Flat, NamedTogether;
    attributes, tiles, manifest, reported, trouble := [], [], [], [], false;
    if memoryLimit == 0 {
      return false, trouble, attributes, tiles, manifest, reported;
    }
    var spools := new TileSpools(route, memoryLimit);
    NoTilesYet(route);
    var schema;
    ok, schema := SpoolStream(spools, reference, stream, AttributesOf(stream));
    trouble := spools.trouble;
    if !ok {
      return;
    }
    ghost var points, ids, good := spools.streamed, spools.ids, Spoolable(stream, reference, route, memoryLimit);
    reported := spools.reported;
    ok := CloseSpools(spools);
    trouble := spools.trouble;
    if good {
      StreamSpooled(reference, stream, route, points, ids);
      assert schema.attributes == AttributesOf(stream);
    }
    if !ok || spools.writers == [] {
      return false, trouble, attributes, tiles, manifest, reported;
    }
    if good && NamedTogether(AttributesOf(stream)) {
      forall i: nat | i < |spools.writers| ensures FileGood(spools, i, AttributesOf(stream)) {
        FilesGood(spools, reference, stream, i);
      }
    }
    ok, tiles, manifest := ReadTiles(spools, schema);
    trouble := spools.trouble;
    attributes := schema.attributes;
    assert ok ==> IsStreamOf(reference, stream, points) && ReportsBounded(reported, points, memoryLimit);
  }

  lemma NoTilesYet(route: Router)
    ensures NoneEmpty(route, [], [])
  {
  }

  /** A stream with points has spools. */
  lemma StreamSpooled(reference: Reference, stream: seq<Pulled>, route: Router, points: seq<SpoolPoint>, ids: seq<TileId>)
    requires IsStreamOf(reference, stream, points) && HasPoints(stream) && Covered(route, points, ids)
    ensures points != [] && ids != []
  {
    hide IsStreamOf;
    var c :| c in stream && c.Pulled? && c.data.positions != [];
    PointsOfStream(reference, stream, points, c);
    assert points[0] in points;
  }

  /** The tiles and the manifest are those of the stream's points, and all reports were within the bound. */
  ghost predicate AuthoredFrom(stream: seq<Pulled>, reference: Reference, route: Router, memoryLimit: nat,
                               attributes: seq<Attribute>, tiles: seq<TileAsset>, manifest: seq<ManifestEntry>,
                               reported: seq<nat>)
  {
    exists points ::
      && IsStreamOf(reference, stream, points) && Authored(route, attributes, points, tiles, manifest)
      && ReportsBounded(reported, points, memoryLimit)
  }

  /** A stream has one sequence of points. */
  lemma {:induction false} StreamOnce(reference: Reference, stream: seq<Pulled>, a: seq<SpoolPoint>, b: seq<SpoolPoint>)
    requires IsStreamOf(reference, stream, a) && IsStreamOf(reference, stream, b)
    ensures a == b
  {
    hide ArePointsOf;
    if stream != [] {
      var m := |stream| - 1;
      var a0, a1 :| a == a0 + a1 && IsStreamOf(reference, stream[..m], a0) && ArePointsOf(reference, stream[m], a1);
      var b0, b1 :| b == b0 + b1 && IsStreamOf(reference, stream[..m], b0) && ArePointsOf(reference, stream[m], b1);
      StreamOnce(reference, stream[..m], a0, b0);
      ChunkOnce(reference, stream[m], a1, b1);
    }
  }

  lemma ChunkOnce(reference: Reference, pulled: Pulled, a: seq<SpoolPoint>, b: seq<SpoolPoint>)
    requires ArePointsOf(reference, pulled, a) && ArePointsOf(reference, pulled, b)
    ensures a == b
  {
    hide AttributeValue;
    forall k: nat | k < |a| ensures a[k] == b[k] {
      assert IsPointAt(reference, pulled.data, pulled.chunk.attributes, k, a[k]);
      assert IsPointAt(reference, pulled.data, pulled.chunk.attributes, k, b[k]);
      assert a[k].attributes == b[k].attributes;
    }
  }
}
