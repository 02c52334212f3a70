/** Taking a stream of points apart into the spools of its tiles. */
module StreamSpooling {
  import opened Options
  import opened Bytes
  import opened TileIds
  import opened Seqs
  import opened SpoolFormat
  import opened SpoolOutcome
  import opened Spool
  import opened ExtraByteNames
  import opened Columns
  import opened TileSpooling

  datatype PointChunk = PointChunk(pointCount: nat, boundsValid: bool, attributes: seq<Attribute>) {
    predicate IsValid()
    {
      if pointCount == 0 then !boundsValid && attributes == []
      else boundsValid && (forall a :: a in attributes ==> a.name != []) && UniqueNames(attributes)
    }
  }

  /** What one pull of the stream delivers; the stream ends after the last. */
  datatype Pulled = Pulled(chunk: PointChunk, data: PointData) | Failed

  /** From source to stage coordinates, where that is possible. */
  type Reference = seq<byte> -> Option<Vector>

  // ----- The points of a stream

  /** `p` is the point at one place of the data, with all its attributes. */
  ghost predicate IsPointAt(reference: Reference, data: PointData, attributes: seq<Attribute>, index: nat, p: SpoolPoint)
  {
    && data.Counted() && index < |data.positions| && |data.positions[index]| == POSITION_SIZE
    && reference(data.positions[index]).Some? && reference(data.positions[index]).value == p.stage
    && p.source == data.positions[index]
    && |p.attributes| == |attributes|
    && forall i :: 0 <= i < |attributes| ==> AttributeValue(data, attributes[i].name, index) == Some(p.attributes[i])
  }

  /** `points` are the points of a stream, chunk after chunk. */
  ghost predicate IsStreamOf(reference: Reference, stream: seq<Pulled>, points: seq<SpoolPoint>)
  {
    if stream == [] then points == []
    else
      exists before, here ::
        && points == before + here && IsStreamOf(reference, stream[..|stream| - 1], before)
        && ArePointsOf(reference, stream[|stream| - 1], here)
  }

  ghost predicate ArePointsOf(reference: Reference, pulled: Pulled, points: seq<SpoolPoint>)
  {
    && pulled.Pulled? && |points| == |pulled.data.positions|
    && forall k: nat :: k < |points| ==> IsPointAt(reference, pulled.data, pulled.chunk.attributes, k, points[k])
  }

  method ReadValues(data: PointData, attributes: seq<Attribute>, index: nat) returns (ok: bool, values: seq<Value>)
    requires data.Counted()
    ensures ok ==> |values| == |attributes| && forall i :: 0 <= i < |attributes| ==>
      AttributeValue(data, attributes[i].name, index) == Some(values[i])
    ensures !ok ==> exists a :: a in attributes && AttributeValue(data, a.name, index) == None
  {
    hide AttributeValue;
    values := [];
    var i := 0;
    while i < |attributes|
      invariant 0 <= i == |values| <= |attributes|
      invariant forall j :: 0 <= j < i ==> AttributeValue(data, attributes[j].name, index) == Some(values[j])
    {
      var value := ReadAttributeValue(data, attributes[i].name, index);
      if value.None? {
        assert attributes[i] in attributes;
        return false, values;
      }
      values := values + [value.value];
      i := i + 1;
    }
    ok := true;
  }

  lemma ValueSized(data: PointData, name: Name, index: nat)
    requires data.Counted() && data.Typed() && AttributeValue(data, name, index).Some?
    ensures var v := AttributeValue(data, name, index).value; |v.bytes| == AttributeSize(v.kind)
  {
    hide KnownKind, NormalNames, IndexOf, ExtraValue, AttributeSize, PointData.Typed, PointData.Known;
    if KnownKind(name).None? {
      ExtraValueSized(data, IndexOf(NormalNames(data.extraByteNames), name), index);
    } else {
      KnownValueSized(data, name, index);
    }
  }

  lemma KnownValueSized(data: PointData, name: Name, index: nat)
    requires data.Typed() && KnownKind(name).Some? && index < |data.Known(name)|
    ensures |data.Known(name)[index]| == AttributeSize(KnownKind(name).value)
  {
    hide KnownKind, AttributeSize, PointData.Known;
  }

  lemma ExtraValueSized(data: PointData, extra: Option<nat>, index: nat)
    requires data.Counted() && data.Typed() && ExtraValue(data, extra, index).Some?
    ensures var v := ExtraValue(data, extra, index).value; |v.bytes| == AttributeSize(v.kind)
  {
    hide Times, Components, AttributeSize, KnownKind;
    var count := if data.extraByteComponentCounts == [] then 1 else data.extraByteComponentCounts[extra.value];
    ComponentsSized(data.extraBytes[extra.value], Times(index, count), count);
  }

  lemma ComponentsSized(values: Column, at: nat, count: nat)
    requires forall k :: 0 <= k < |values| ==> |values[k]| == 8
    ensures var v := Components(values, at, count); v.Some? ==> |v.value.bytes| == AttributeSize(v.value.kind)
  {
  }

  lemma PointSized(reference: Reference, data: PointData, attributes: seq<Attribute>, index: nat, p: SpoolPoint)
    requires data.Typed() && IsPointAt(reference, data, attributes, index, p)
    ensures Sized(p)
  {
    hide AttributeValue, AttributeSize;
    forall v | v in p.attributes ensures |v.bytes| == AttributeSize(v.kind) {
      var i :| 0 <= i < |p.attributes| && p.attributes[i] == v;
      ValueSized(data, attributes[i].name, index);
    }
  }

  /** Values are found only under built-in names and under names that normalizing gives. */
  lemma PointReadable(reference: Reference, data: PointData, attributes: seq<Attribute>, index: nat, p: SpoolPoint)
    requires IsPointAt(reference, data, attributes, index, p) && UniqueNames(attributes)
    ensures Readable(attributes)
  {
    hide KnownKind, NormalNames, ExtraValue, IsIdentifier, RESERVED;
    forall a | a in attributes ensures KnownKind(a.name).Some? || (IsIdentifier(a.name) && a.name !in RESERVED) {
      var i :| 0 <= i < |attributes| && attributes[i] == a;
      assert AttributeValue(data, a.name, index).Some?;
      if KnownKind(a.name).None? {
        FoundNormalized(data, a.name, index);
      }
    }
  }

  lemma FoundNormalized(data: PointData, name: Name, index: nat)
    requires data.Counted() && KnownKind(name).None? && AttributeValue(data, name, index).Some?
    ensures IsIdentifier(name) && name !in RESERVED
  {
    hide KnownKind, IsIdentifier, RESERVED, Normalized;
    var names := NormalNames(data.extraByteNames);
    NormalizedUsable(data.extraByteNames, names);
    assert name in names;
  }

  // ----- Streams that only the system can refuse

  /** The point has a tile, stage coordinates, and a value of the right type for every attribute. */
  ghost predicate GoodPoint(route: Router, reference: Reference, data: PointData, attributes: seq<Attribute>, index: nat)
    requires data.Counted() && index < |data.positions|
  {
    && route(data.positions[index]).IsValid() && reference(data.positions[index]).Some?
    && forall i :: 0 <= i < |attributes| ==> GoodValue(data, attributes[i], index)
  }

  ghost predicate GoodValue(data: PointData, a: Attribute, index: nat)
    requires data.Counted()
  {
    AttributeValue(data, a.name, index).Some? && AttributeValue(data, a.name, index).value.kind == a.kind
  }

  ghost predicate GoodChunk(route: Router, reference: Reference, pulled: Pulled, attributes: seq<Attribute>)
  {
    && pulled.Pulled? && DeliveredWell(pulled.chunk, pulled.data) && pulled.chunk.attributes == attributes
    && forall k: nat :: k < |pulled.data.positions| ==> GoodPoint(route, reference, pulled.data, attributes, k)
  }

  function SchemaOf(attributes: seq<Attribute>): Schema { Schema(SCHEMA_VERSION, SOURCE_AND_STAGE, attributes) }

  /** All chunks are valid, have these attributes, and good points. */
  ghost predicate GoodStream(route: Router, reference: Reference, stream: seq<Pulled>, attributes: seq<Attribute>)
  {
    && SchemaOf(attributes).IsValid() && NamesFit(attributes)
    && forall c :: c in stream ==> GoodChunk(route, reference, c, attributes)
  }

  // ----- Spooling

  /** What the caller was told is the buffered bytes after each point, before any flush of all spools. */
  ghost predicate ReportsBounded(reported: seq<nat>, points: seq<SpoolPoint>, memoryLimit: nat)
  {
    && |reported| == |points|
    && forall k :: 0 <= k < |points| ==> reported[k] <= memoryLimit - 1 + |RecordBytes(points[k])|
  }

  ghost predicate Running(spools: TileSpools)
    reads spools, spools.writers
  {
    && spools.Valid() && spools.bufferedBytes < spools.memoryLimit
    && ReportsBounded(spools.reported, spools.streamed, spools.memoryLimit)
    && (spools.streamed == [] ==> spools.writers == []) && NoneEmpty(spools.route, spools.streamed, spools.ids)
  }

  /** Spools one point. */
  method SpoolPointAt(spools: TileSpools, reference: Reference, data: PointData, schema: Schema, index: nat)
    returns (ok: bool, ghost p: SpoolPoint)
    requires Running(spools) && data.Counted() && data.Typed() && index < |data.positions|
    requires forall position :: FitsWidths(spools.route(position))
    modifies spools, spools.writers
    ensures forall i :: 0 <= i < |spools.writers| ==> spools.writers[i] in old(spools.writers) || fresh(spools.writers[i])
    ensures ok ==> Running(spools) && spools.streamed == old(spools.streamed) + [p]
    ensures ok ==> IsPointAt(reference, data, schema.attributes, index, p)
    ensures ok ==> spools.trouble == old(spools.trouble) && (old(spools.Uniform(schema)) ==> spools.Uniform(schema))
    ensures old(spools.trouble) ==> spools.trouble
    ensures !ok && !spools.trouble && old(spools.Uniform(schema)) && schema.IsValid() && NamesFit(schema.attributes) ==>
      !GoodPoint(spools.route, reference, data, schema.attributes, index)
  {
    hide TileSpools.Valid, AttributeValue, FitsWidths, RecordBytes, Sized, Schema.IsValid, TileSpools.Uniform;
    p := SpoolPoint([], [], []);
    ok := spools.Ask();
    if !ok {
      return;
    }
    var position := data.positions[index];
    assert |position| == POSITION_SIZE by { assert position in data.positions; }
    var tileId := spools.route(position);
    if !tileId.IsValid() {
      return false, p;
    }
    hide NoneEmpty;
    ghost var streamed, ids := spools.streamed, spools.ids;
    var k;
    ok, k := spools.FindOrOpen(tileId, schema);
    if !ok {
      return;
    }
    SchemaAt(spools, k, schema);
    var stagePosition := reference(position);
    if stagePosition.None? {
      return false, p;
    }
    var values;
    ok, values := ReadValues(data, schema.attributes, index);
    if !ok {
      MissingValue(spools.route, reference, data, schema.attributes, index);
      return;
    }
    var point := SpoolPoint(position, stagePosition.value, values);
    p := point;
    PointSized(reference, data, schema.attributes, index, p);
    ok := spools.AddPoint(k, point);
    if ok {
      NoneEmptyNext(spools.route, streamed, point, ids, spools.ids);
    }
  }

  lemma SchemaAt(spools: TileSpools, k: nat, schema: Schema)
    requires spools.Valid() && k < |spools.ids|
    ensures |spools.schemas| == |spools.ids| && (spools.Uniform(schema) ==> spools.schemas[k] == schema)
  {
    hide TileSpools.Keeps;
    assert spools.schemas[k] in spools.schemas;
  }

  method SpoolChunk(spools: TileSpools, reference: Reference, data: PointData, schema: Schema)
    returns (ok: bool, ghost here: seq<SpoolPoint>)
    requires Running(spools) && data.Counted() && data.Typed()
    requires forall position :: FitsWidths(spools.route(position))
    modifies spools, spools.writers
    ensures forall i :: 0 <= i < |spools.writers| ==> spools.writers[i] in old(spools.writers) || fresh(spools.writers[i])
    ensures ok ==> Running(spools) && spools.streamed == old(spools.streamed) + here
    ensures ok ==> |here| == |data.positions|
    ensures ok ==> forall k: nat :: k < |here| ==> IsPointAt(reference, data, schema.attributes, k, here[k])
    ensures ok ==> spools.trouble == old(spools.trouble) && (old(spools.Uniform(schema)) ==> spools.Uniform(schema))
    ensures old(spools.trouble) ==> spools.trouble
    ensures !ok && !spools.trouble && old(spools.Uniform(schema)) && schema.IsValid() && NamesFit(schema.attributes) ==>
      exists k: nat :: k < |data.positions| && !GoodPoint(spools.route, reference, data, schema.attributes, k)
  {
    hide TileSpools.Valid, IsPointAt, FitsWidths, RecordBytes, GoodPoint, Schema.IsValid, TileSpools.Uniform;
    here := [];
    var index := 0;
    while index < |data.positions|
      invariant 0 <= index == |here| <= |data.positions|
      invariant forall i :: 0 <= i < |spools.writers| ==> spools.writers[i] in old(spools.writers) || fresh(spools.writers[i])
      invariant Running(spools) && spools.streamed == old(spools.streamed) + here
      invariant forall k: nat :: k < index ==> IsPointAt(reference, data, schema.attributes, k, here[k])
      invariant spools.trouble == old(spools.trouble) && (old(spools.Uniform(schema)) ==> spools.Uniform(schema))
    {
      ghost var p;
      ok, p := SpoolPointAt(spools, reference, data, schema, index);
      if !ok {
        return;
      }
      here := here + [p];
      index := index + 1;
    }
    ok := true;
  }

  /** The attributes that all chunks with points have, once there are points. */
  ghost predicate SchemaHolds(schema: Schema, points: seq<SpoolPoint>)
  {
    points != [] ==> Readable(schema.attributes)
  }

  /** The checks on a chunk before its points are taken. */
  predicate DeliveredWell(chunk: PointChunk, data: PointData)
  {
    chunk.IsValid() && data.IsValid() && chunk.pointCount == |data.positions|
  }

  lemma MissingValue(route: Router, reference: Reference, data: PointData, attributes: seq<Attribute>, index: nat)
    requires data.Counted() && index < |data.positions|
    requires exists a :: a in attributes && AttributeValue(data, a.name, index) == None
    ensures !GoodPoint(route, reference, data, attributes, index)
  {
    hide AttributeValue;
    var a :| a in attributes && AttributeValue(data, a.name, index) == None;
    var i :| 0 <= i < |attributes| && attributes[i] == a;
    assert !GoodValue(data, attributes[i], index);
  }

  lemma NoStream(reference: Reference)
    ensures IsStreamOf(reference, [], [])
  {
  }

  /** One more chunk of the stream; when it has points, its attributes are readable. */
  lemma ChunkTaken(reference: Reference, stream: seq<Pulled>, k: nat, before: seq<SpoolPoint>, here: seq<SpoolPoint>)
    requires k < |stream| && stream[k].Pulled? && DeliveredWell(stream[k].chunk, stream[k].data)
    requires IsStreamOf(reference, stream[..k], before) && ArePointsOf(reference, stream[k], here)
    ensures IsStreamOf(reference, stream[..k + 1], before + here)
    ensures here != [] ==> Readable(stream[k].chunk.attributes)
    ensures here == [] ==> stream[k].chunk.attributes == []
  {
    hide IsPointAt, Readable, UniqueNames;
    assert stream[..k + 1][..k] == stream[..k];
    if here != [] {
      PointReadable(reference, stream[k].data, stream[k].chunk.attributes, 0, here[0]);
    }
  }

  lemma NothingReadable()
    ensures Readable([])
  {
  }

  /** So far everything had these attributes, which can be written. */
  ghost predicate Expecting(spools: TileSpools, schema: Schema, wanted: seq<Attribute>)
    reads spools
  {
    && spools.Uniform(SchemaOf(wanted)) && SchemaOf(wanted).IsValid() && NamesFit(wanted)
    && (schema.attributes == [] || schema == SchemaOf(wanted))
  }

  /** Checks what was pulled, and spools its points. The first attributes seen are those of the whole stream. */
  method TakeChunk(spools: TileSpools, reference: Reference, pulled: Pulled, schemaBefore: Schema,
                   ghost wanted: seq<Attribute>)
    returns (ok: bool, schema: Schema, ghost here: seq<SpoolPoint>)
    requires Running(spools) && (pulled.Pulled? ==> pulled.data.Typed())
    requires forall position :: FitsWidths(spools.route(position))
    modifies spools, spools.writers
    ensures forall i :: 0 <= i < |spools.writers| ==> spools.writers[i] in old(spools.writers) || fresh(spools.writers[i])
    ensures ok ==> Running(spools) && spools.streamed == old(spools.streamed) + here
    ensures ok ==> ArePointsOf(reference, pulled, here) && DeliveredWell(pulled.chunk, pulled.data)
    ensures ok ==> pulled.Pulled? && schema.attributes == pulled.chunk.attributes
    ensures ok ==> schema == if schemaBefore.attributes == [] then SchemaOf(schema.attributes) else schemaBefore
    ensures ok ==> spools.trouble == old(spools.trouble) && (old(spools.Uniform(schema)) ==> spools.Uniform(schema))
    ensures old(spools.trouble) ==> spools.trouble
    ensures !ok && !spools.trouble && old(Expecting(spools, schemaBefore, wanted)) ==>
      !GoodChunk(spools.route, reference, pulled, wanted)
    ensures ok && old(Expecting(spools, schemaBefore, wanted)) && GoodChunk(spools.route, reference, pulled, wanted) ==>
      Expecting(spools, schema, wanted) && schema == SchemaOf(wanted)
  {
    hide TileSpools.Valid, IsPointAt, FitsWidths, ReportsBounded, Schema.IsValid, PointChunk.IsValid, GoodPoint,
         TileSpools.Uniform;
    schema, here := schemaBefore, [];
    if pulled.Failed? || !DeliveredWell(pulled.chunk, pulled.data) {
      return false, schema, here;
    }
    var chunkSchema := Schema(SCHEMA_VERSION, SOURCE_AND_STAGE, pulled.chunk.attributes);
    if schema.attributes == [] {
      schema := chunkSchema;
    } else if schema.attributes != chunkSchema.attributes {
      return false, schema, here;
    }
    if !schema.IsValid() {
      return false, schema, here;
    }
    ok, here := SpoolChunk(spools, reference, pulled.data, schema);
  }

  method SpoolStream(spools: TileSpools, reference: Reference, stream: seq<Pulled>, ghost wanted: seq<Attribute>)
    returns (ok: bool, schema: Schema)
    requires Running(spools) && spools.streamed == [] && spools.writers == [] && spools.schemas == []
    requires forall position :: FitsWidths(spools.route(position))
    requires forall c :: c in stream && c.Pulled? ==> c.data.Typed()
    modifies spools, spools.writers
    ensures forall i :: 0 <= i < |spools.writers| ==> fresh(spools.writers[i])
    ensures ok ==> Running(spools) && IsStreamOf(reference, stream, spools.streamed)
    ensures ok ==> SchemaHolds(schema, spools.streamed)
    ensures ok ==> spools.trouble == old(spools.trouble)
    ensures old(spools.trouble) ==> spools.trouble
    ensures !ok && !spools.trouble ==> !GoodStream(spools.route, reference, stream, wanted)
    ensures ok && GoodStream(spools.route, reference, stream, wanted) ==>
      spools.Uniform(SchemaOf(wanted)) && (spools.streamed != [] ==> schema == SchemaOf(wanted))
  {
    hide Running, FitsWidths, Readable, IsStreamOf, DeliveredWell, ArePointsOf, PointData.Typed, GoodChunk, GoodStream,
         Expecting;
    ghost var good := GoodStream(spools.route, reference, stream, wanted);
    NothingReadable();
    GoodStart(spools, reference, stream, wanted);
    schema := Schema(SCHEMA_VERSION, SOURCE_AND_STAGE, []);
    NoStream(reference);
    var k := 0;
    assert stream[..0] == [];
    while k < |stream|
      invariant 0 <= k <= |stream| && Running(spools)
      invariant forall i :: 0 <= i < |spools.writers| ==> fresh(spools.writers[i])
      invariant IsStreamOf(reference, stream[..k], spools.streamed)
      invariant SchemaHolds(schema, spools.streamed)
      invariant spools.trouble == old(spools.trouble)
      invariant good ==> Expecting(spools, schema, wanted) && (k > 0 ==> schema == SchemaOf(wanted))
    {
      ok := spools.Ask();
      if !ok {
        return;
      }
      assert stream[k] in stream;
      assert good ==> GoodChunk(spools.route, reference, stream[k], wanted) by { GoodStreamAt(spools.route, reference, stream, wanted, k); }
      ghost var before, here := spools.streamed, [];
      ok, schema, here := TakeChunk(spools, reference, stream[k], schema, wanted);
      if !ok {
        return;
      }
      ChunkTaken(reference, stream, k, before, here);
      k := k + 1;
    }
    assert stream[..k] == stream;
    GoodEnd(spools, schema, wanted);
    NoPoints(reference, stream, spools.streamed);
    ok := true;
  }

  lemma GoodStreamAt(route: Router, reference: Reference, stream: seq<Pulled>, attributes: seq<Attribute>, k: nat)
    requires k < |stream|
    ensures GoodStream(route, reference, stream, attributes) ==> GoodChunk(route, reference, stream[k], attributes)
  {
    hide GoodChunk;
  }

  lemma GoodStart(spools: TileSpools, reference: Reference, stream: seq<Pulled>, wanted: seq<Attribute>)
    requires spools.schemas == []
    ensures GoodStream(spools.route, reference, stream, wanted) ==>
      Expecting(spools, Schema(SCHEMA_VERSION, SOURCE_AND_STAGE, []), wanted)
  {
    hide GoodChunk;
  }

  lemma GoodEnd(spools: TileSpools, schema: Schema, wanted: seq<Attribute>)
    ensures Expecting(spools, schema, wanted) ==> spools.Uniform(SchemaOf(wanted))
  {
  }

  lemma NoPoints(reference: Reference, stream: seq<Pulled>, points: seq<SpoolPoint>)
    requires IsStreamOf(reference, stream, points)
    ensures stream == [] ==> points == []
  {
  }
}
