/** Spreading a stream of points over one spool per tile, within a memory limit. */
module TileSpooling {
  import opened Bytes
  import opened TileIds
  import opened Seqs
  import opened SpoolFormat
  import opened Spool
  import opened ExtraByteNames
  import opened Columns

  type Vector = v: seq<byte> | |v| == POSITION_SIZE witness ToBytes(0, POSITION_SIZE)

  /** Where a source position belongs; an invalid identity when nowhere. */
  type Router = seq<byte> -> TileId

  predicate RoutesTo(route: Router, id: TileId, p: SpoolPoint) { route(p.source) == id }

  /** The points that go to one tile, in the order they came. */
  function Routed(route: Router, points: seq<SpoolPoint>, id: TileId): seq<SpoolPoint>
  {
    Filter((p: SpoolPoint) => RoutesTo(route, id, p), points)
  }

  lemma RoutedNext(route: Router, points: seq<SpoolPoint>, p: SpoolPoint, id: TileId)
    ensures Routed(route, points + [p], id)
      == if RoutesTo(route, id, p) then Routed(route, points, id) + [p] else Routed(route, points, id)
  {
    FilterAppend((q: SpoolPoint) => RoutesTo(route, id, q), points, p);
  }

  lemma RoutedNowhere(route: Router, points: seq<SpoolPoint>, ids: seq<TileId>, id: TileId)
    requires Covered(route, points, ids) && id !in ids
    ensures Routed(route, points, id) == []
  {
    FilterNone((q: SpoolPoint) => RoutesTo(route, id, q), points);
  }

  predicate Covered(route: Router, points: seq<SpoolPoint>, ids: seq<TileId>)
  {
    forall p :: p in points ==> route(p.source) in ids
  }

  lemma {:induction false} SumUpdated(s: seq<nat>, i: nat, v: nat)
    requires i < |s|
    ensures Sum(s[i := v]) + s[i] == Sum(s) + v
  {
    var m := |s| - 1;
    if i < m {
      SumUpdated(s[..m], i, v);
      assert s[i := v][..m] == s[..m][i := v];
    } else {
      assert s[i := v][..m] == s[..m];
    }
  }

  lemma SumNext(s: seq<nat>, v: nat)
    ensures Sum(s + [v]) == Sum(s) + v
  {
    assert (s + [v])[..|s|] == s;
  }

  lemma {:induction false} SumOfZeros(s: seq<nat>)
    requires forall i :: 0 <= i < |s| ==> s[i] == 0
    ensures Sum(s) == 0
  {
    if s != [] {
      SumOfZeros(s[..|s| - 1]);
    }
  }

  /** The spools of one authoring run. Their keys are the tile identities. */
  class TileSpools {
    const route: Router
    const memoryLimit: nat
    var ids: seq<TileId>
    var writers: seq<TileSpoolWriter>
    var bufferedBytes: nat
    /** What the caller was told about the buffered bytes, each time. */
    var reported: seq<nat>

    /** The file system has failed, or the run was told to stop. */
    var trouble: bool

    /** The points taken, and what each writer has of them in its file and in its buffer. */
    ghost var streamed: seq<SpoolPoint>
    ghost var schemas: seq<Schema>
    ghost var buffers: seq<nat>

    constructor (route: Router, memoryLimit: nat)
      requires memoryLimit > 0
      ensures Valid() && bufferedBytes < memoryLimit && ids == [] && streamed == [] && reported == []
      ensures this.route == route && this.memoryLimit == memoryLimit && writers == [] && !trouble && schemas == []
    {
      this.route, this.memoryLimit := route, memoryLimit;
      ids, writers, bufferedBytes, reported, trouble, streamed, buffers, schemas := [], [], 0, [], false, [], [], [];
    }

    /** The writer of the `i`th tile has exactly the points routed to the tile. */
    ghost predicate Keeps(i: nat)
      requires i < |writers|
      reads this`ids, this`writers, this`buffers, this`streamed, this`schemas, writers[i]
    {
      var w := writers[i];
      && w.Valid() && w.Sound() && w.memoryLimit == memoryLimit
      && |ids| == |buffers| == |writers| == |schemas| && w.schema == schemas[i]
      && w.tile == ids[i] && w.buffered == buffers[i] && w.Contents() == Routed(route, streamed, ids[i])
    }

    ghost predicate Valid()
      reads this, writers
    {
      && memoryLimit > 0
      && |ids| == |writers| == |buffers| == |schemas| && Distinct(ids) && Distinct(writers)
      && (forall i: nat :: i < |writers| ==> Keeps(i))
      && Covered(route, streamed, ids)
      && bufferedBytes == Sum(buffers)
    }

    /** Every spool was opened with this schema. */
    ghost predicate Uniform(schema: Schema)
      reads this`schemas
    {
      forall s :: s in schemas ==> s == schema
    }

    /** Whether the run may go on. */
    method Ask() returns (ok: bool)
      modifies this`trouble
      ensures trouble == (old(trouble) || !ok)
    {
      ok := *;
      trouble := trouble || !ok;
    }

    method Find(id: TileId) returns (k: nat)
      ensures k <= |ids| && (k < |ids| ==> ids[k] == id) && (k == |ids| ==> id !in ids)
    {
      k := 0;
      while k < |ids| && ids[k] != id
        invariant k <= |ids| && id !in ids[..k]
      {
        assert ids[..k + 1] == ids[..k] + [ids[k]];
        k := k + 1;
      }
      assert k == |ids| ==> ids[..k] == ids;
    }

    /** Finds the spool of a tile, or opens one. */
    method FindOrOpen(id: TileId, schema: Schema) returns (ok: bool, k: nat)
      requires Valid() && FitsWidths(id)
      modifies this, writers
      ensures forall i :: 0 <= i < |writers| ==> writers[i] in old(writers) || fresh(writers[i])
      ensures ok ==> Valid() && k < |ids| && ids[k] == id
      ensures ok && old(Uniform(schema)) ==> Uniform(schema)
      ensures ok ==> ids == old(ids) || ids == old(ids) + [id]
      ensures trouble == old(trouble) || (!ok && trouble)
      ensures !ok && !trouble ==> !CanOpen(id, schema)
      ensures streamed == old(streamed) && bufferedBytes == old(bufferedBytes) && reported == old(reported)
    {
      hide TileSpoolWriter.Accurate, Filter, Sum, FitsWidths, Schema.IsValid;
      k := Find(id);
      if k < |ids| {
        return true, k;
      }
      var writer := new TileSpoolWriter();
      ok := writer.Open(id, schema, memoryLimit);
      if !ok {
        trouble := trouble || (id.IsValid() && schema.IsValid() && (!writer.created || !writer.healthy));
        return false, 0;
      }
      RoutedNowhere(route, streamed, ids, id);
      SumNext(buffers, 0);
      ids, writers, buffers, schemas := ids + [id], writers + [writer], buffers + [0], schemas + [schema];
      forall i: nat | i < |writers| ensures Keeps(i) {
        if i < |writers| - 1 {
          assert old(Keeps(i));
        }
      }
    }

    /** Writes out all buffers. */
    method FlushSpools() returns (ok: bool)
      requires Valid()
      modifies this, writers
      ensures ok ==> Valid() && bufferedBytes == 0
      ensures ids == old(ids) && writers == old(writers) && streamed == old(streamed) && reported == old(reported)
      ensures schemas == old(schemas) && trouble == (old(trouble) || !ok)
    {
      hide TileSpoolWriter.Accurate, Filter, Sum, Schema.IsValid;
      var i := 0;
      while i < |writers|
        invariant 0 <= i <= |writers| && ids == old(ids) && writers == old(writers) && streamed == old(streamed)
        invariant schemas == old(schemas) && trouble == old(trouble)
        invariant |buffers| == |writers| && bufferedBytes == old(bufferedBytes) && reported == old(reported)
        invariant forall j: nat :: j < |writers| ==> Keeps(j)
        invariant forall j :: 0 <= j < i ==> buffers[j] == 0
      {
        assert Keeps(i);
        label before:
        ok := writers[i].Flush();
        if !ok {
          trouble := true;
          return;
        }
        buffers := buffers[i := 0];
        forall j: nat | j < |writers| ensures Keeps(j) {
          assert old@before(Keeps(j));
        }
        i := i + 1;
      }
      SumOfZeros(buffers);
      bufferedBytes := 0;
      ok := true;
    }

    /** Adds a point to the spool of its tile, and keeps the account of what is buffered. */
    method AddTo(k: nat, point: TypedPoint) returns (ok: bool)
      requires Valid() && k < |ids| && route(point.source) == ids[k]
      modifies this, writers
      ensures ids == old(ids) && writers == old(writers)
      ensures ok ==> Valid() && streamed == old(streamed) + [point]
      ensures schemas == old(schemas) && (ok ==> trouble == old(trouble)) && (old(trouble) ==> trouble)
      ensures !ok && !trouble ==> !ValuesMatch(point.attributes, schemas[k].attributes)
      ensures ok ==> bufferedBytes <= old(bufferedBytes) + |RecordBytes(point)|
      ensures ok ==> reported == old(reported)
    {
      hide TileSpoolWriter.Accurate, Filter, Sum, Schema.IsValid, RecordSize, RecordBytes, Sized;
      assert Keeps(k);
      var writer := writers[k];
      var bufferedBefore := writer.BufferedBytes();
      ok := writer.Append(point);
      if !ok {
        trouble := trouble || !writer.healthy;
        return;
      }
      var bufferedAfter := writer.BufferedBytes();
      SumUpdated(buffers, k, bufferedAfter);
      SumAtLeast(buffers, k);
      if bufferedAfter >= bufferedBefore {
        bufferedBytes := bufferedBytes + (bufferedAfter - bufferedBefore);
      } else {
        bufferedBytes := bufferedBytes - (bufferedBefore - bufferedAfter);
      }
      PointLength(point, writer.schema);
      buffers := buffers[k := bufferedAfter];
      streamed := streamed + [point];
      forall i: nat | i < |writers| ensures Keeps(i) {
        assert old(Keeps(i));
        RoutedNext(route, old(streamed), point, ids[i]);
      }
    }

    /** Takes one point: into the spool of its tile, and then out of memory when the limit is reached. */
    method AddPoint(k: nat, point: TypedPoint) returns (ok: bool)
      requires Valid() && k < |ids| && route(point.source) == ids[k] && bufferedBytes < memoryLimit
      modifies this, writers
      ensures ids == old(ids) && writers == old(writers) && schemas == old(schemas)
      ensures ok ==> Valid() && bufferedBytes < memoryLimit && streamed == old(streamed) + [point]
      ensures old(trouble) ==> trouble
      ensures ok ==> trouble == old(trouble)
      ensures !ok && !trouble ==> !ValuesMatch(point.attributes, schemas[k].attributes)
      ensures ok ==> |reported| == |old(reported)| + 1 && reported[..|old(reported)|] == old(reported)
      ensures ok ==> reported[|old(reported)|] <= memoryLimit - 1 + |RecordBytes(point)|
    {
      hide Filter, Sum, RecordBytes, Sized, Keeps;
      ok := AddTo(k, point);
      if !ok {
        return;
      }
      reported := reported + [bufferedBytes];
      if bufferedBytes >= memoryLimit {
        ok := FlushSpools();
      }
    }
  }

  /** Every tile of the list has a point. */
  ghost predicate NoneEmpty(route: Router, points: seq<SpoolPoint>, ids: seq<TileId>)
  {
    forall id :: id in ids ==> Routed(route, points, id) != []
  }

  lemma NoneEmptyNext(route: Router, points: seq<SpoolPoint>, p: SpoolPoint, before: seq<TileId>, ids: seq<TileId>)
    requires NoneEmpty(route, points, before) && (ids == before || ids == before + [route(p.source)])
    ensures NoneEmpty(route, points + [p], ids)
  {
    hide Routed;
    forall id | id in ids ensures Routed(route, points + [p], id) != [] {
      RoutedNext(route, points, p, id);
    }
  }

  /** A tile and a schema for which only the file system can refuse a spool. */
  predicate CanOpen(id: TileId, schema: Schema)
  {
    id.IsValid() && schema.IsValid() && NamesFit(schema.attributes)
  }

  lemma PointLength(p: SpoolPoint, schema: Schema)
    requires Sized(p) && ValuesMatch(p.attributes, schema.attributes)
    ensures |RecordBytes(p)| == RecordSize(schema)
  {
    RecordLength(p, schema);
  }
}
