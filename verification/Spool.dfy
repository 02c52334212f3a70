/** The writer and the reader of a tile spool. */
module Spool {
  import opened Options
  import opened Bytes
  import opened TileIds
  import opened SpoolFormat
  import opened SpoolOutcome

  const WORD := Pow256(8)

  /** The kinds and sizes of a point's values are those of the types they are declared with. */
  type TypedPoint = p: SpoolPoint | Sized(p) witness SpoolPoint(ToBytes(0, POSITION_SIZE), ToBytes(0, POSITION_SIZE), [])

  /** Buffers points and writes them to a file. A file operation may fail at any time; once one has, all do. */
  class TileSpoolWriter {
    var created: bool
    var open: bool
    var healthy: bool
    var file: seq<byte>
    var schema: Schema
    var memoryLimit: nat
    var buffered: nat
    var pointCount: nat
    var points: seq<TypedPoint>
    var bytesWritten: nat

    /** The whole head has been written, for this tile; then these points. */
    ghost var headed: bool
    ghost var tile: TileId
    ghost var written: seq<SpoolPoint>

    constructor ()
      ensures Valid() && !created
    {
      created, open, healthy, headed := false, false, false, false;
      buffered, points, written := 0, [], [];
    }

    /** Everything accepted since the spool was opened. */
    ghost function Contents(): seq<SpoolPoint>
      reads this
    {
      written + points
    }

    /** The file is what the accepted points have made it, so far. */
    ghost predicate Sound()
      reads this
    {
      created && open && healthy && headed
    }

    ghost predicate Valid()
      reads this
    {
      && (open ==> created)
      && (created ==> memoryLimit > 0 && AllConform(points, schema) && buffered == Times(|points|, RecordSize(schema)))
      && (!created ==> buffered == 0)
      && (Sound() ==> Accurate())
    }

    ghost predicate Accurate()
      reads this`tile, this`schema, this`written, this`file, this`pointCount, this`bytesWritten
    {
      && Writable(tile, schema) && AllConform(written, schema)
      && file == HeadBytes(tile, schema) + RecordsBytes(written)
      && pointCount == |written| % WORD
      && bytesWritten == |file|
    }

    /** Writes some bytes at the end of the file. */
    method Put(bytes: seq<byte>) returns (ok: bool)
      modifies this`file, this`healthy
      ensures ok == healthy && (healthy ==> old(healthy))
      ensures old(file) <= file && (ok ==> file == old(file) + bytes)
    {
      if healthy {
        var works, taken := *, *;
        if works {
          file := file + bytes;
        } else if 0 <= taken <= |bytes| {
          file, healthy := file + bytes[..taken], false;
        } else {
          healthy := false;
        }
      }
      ok := healthy;
    }

    /** Hands what was written to the system. */
    method Sync() returns (ok: bool)
      modifies this`healthy
      ensures ok == healthy && (healthy ==> old(healthy))
    {
      var works := *;
      healthy := healthy && works;
      ok := healthy;
    }

    method PutAttributes() returns (ok: bool)
      requires created && open
      modifies this`file, this`healthy
      ensures ok ==> healthy
      ensures healthy ==> old(healthy) && (ok <==> NamesFit(schema.attributes))
      ensures ok ==> file == old(file) + AttributesBytes(schema.attributes)
    {
      hide ToBytes;
      ghost var start := file;
      var k := 0;
      assert schema.attributes[..0] == [];
      while k < |schema.attributes|
        invariant 0 <= k <= |schema.attributes| && NamesFit(schema.attributes[..k])
        invariant healthy ==> old(healthy)
        invariant healthy ==> file == start + AttributesBytes(schema.attributes[..k])
        invariant k > 0 ==> healthy
      {
        var a := schema.attributes[k];
        if |a.name| >= 0x1_0000_0000 {
          NameTooLong(schema.attributes, k);
          return false;
        }
        ghost var before := file;
        ok := Put(ToBytes(|a.name|, 4));
        if ok { ok := Put(a.name); }
        if ok { ok := Put([a.kind]); }
        if !ok {
          return false;
        }
        assert file == before + AttributeBytes(a);
        AttributesNext(schema.attributes, k);
        AttributeAppended(start, AttributesBytes(schema.attributes[..k]), AttributeBytes(a));
        k := k + 1;
      }
      assert schema.attributes[..k] == schema.attributes;
      ok := healthy;
    }

    method PutFixed(tile: TileId) returns (ok: bool)
      requires FitsWidths(tile) && 0 <= schema.coordinateSpace < 256 && file == []
      modifies this`file, this`healthy
      ensures ok == healthy && (healthy ==> old(healthy))
      ensures ok ==> file == FixedHead(tile, schema)
    {
      hide ToBytes, AsUnsignedWord, Pow256;
      ok := Put(HEADER);
      ok := Put(ToBytes(schema.version, 4));
      if ok { ok := Put([schema.coordinateSpace]); }
      if ok { ok := Put(ToBytes(AsUnsignedWord(tile.level, 4), 4)); }
      if ok { ok := Put(ToBytes(AsUnsignedWord(tile.x, 8), 8)); }
      if ok { ok := Put(ToBytes(AsUnsignedWord(tile.y, 8), 8)); }
      if ok { ok := Put(ToBytes(|schema.attributes|, 4)); }
    }

    method PutHead(tile: TileId) returns (ok: bool)
      requires FitsWidths(tile) && tile.IsValid() && schema.IsValid() && created && open && file == []
      modifies this`file, this`healthy
      ensures healthy ==> old(healthy) && (ok <==> NamesFit(schema.attributes))
      ensures ok ==> healthy && Writable(tile, schema) && file == HeadBytes(tile, schema) + RecordsBytes([])
    {
      hide NamesFit, FixedHead, AttributesBytes, FitsWidths;
      ok := PutFixed(tile);
      if !ok {
        return false;
      }
      ok := PutAttributes();
      if ok {
        HeadWritten(tile, schema);
      }
    }

    /** Starts over on an empty file, if that can be created. */
    method Create(tile: TileId, schema: Schema, memoryLimit: nat) returns (ok: bool)
      modifies this
      ensures ok == created == open && !headed && Contents() == [] && points == [] && buffered == 0 && pointCount == 0
      ensures ok ==> file == [] && healthy
      ensures ok ==> this.tile == tile && this.schema == schema && this.memoryLimit == memoryLimit
    {
      headed, written, points, buffered, pointCount, bytesWritten := false, [], [], 0, 0, 0;
      created := *;
      open := created;
      if created {
        file, healthy := [], true;
        this.tile, this.schema, this.memoryLimit := tile, schema, memoryLimit;
      }
      ok := created;
    }

    method Open(tile: TileId, schema: Schema, memoryLimit: nat) returns (ok: bool)
      requires FitsWidths(tile) && Valid()
      modifies this
      ensures Valid()
      ensures !(tile.IsValid() && schema.IsValid() && memoryLimit > 0) ==> !ok && unchanged(this)
      ensures tile.IsValid() && schema.IsValid() && memoryLimit > 0 ==>
        (ok <==> created && healthy && NamesFit(schema.attributes))
      ensures ok ==> Sound() && Contents() == [] && buffered == 0
      ensures ok ==> this.tile == tile && this.schema == schema && this.memoryLimit == memoryLimit
    {
      hide HeadBytes, ToBytes, FitsWidths, RecordsBytes, Writable, RecordSize, Conforms, NamesFit;
      NoRecords(schema);
      if !tile.IsValid() || !schema.IsValid() || memoryLimit == 0 {
        return false;
      }
      ok := Create(tile, schema, memoryLimit);
      if !ok {
        return false;
      }
      ok := PutHead(tile);
      if !ok {
        return false;
      }
      bytesWritten := |file|;
      headed := true;
    }

    method Append(point: TypedPoint) returns (ok: bool)
      requires Valid()
      modifies this
      ensures Valid()
      ensures !(old(open) && ValuesMatch(point.attributes, old(schema.attributes))) ==> !ok && unchanged(this)
      ensures schema == old(schema) && tile == old(tile) && memoryLimit == old(memoryLimit) && open == old(open)
      ensures created == old(created)
      ensures healthy ==> old(healthy)
      ensures old(open) && ValuesMatch(point.attributes, old(schema.attributes)) ==>
        var n := old(buffered) + RecordSize(schema);
        && (n < memoryLimit ==> ok && buffered == n)
        && (n >= memoryLimit ==> ok == healthy && (ok ==> buffered == 0))
      ensures ok && old(Sound()) ==> Contents() == old(Contents()) + [point]
      ensures ok && healthy && old(Sound()) ==> Sound()
      ensures ok && old(buffered) + RecordSize(schema) < memoryLimit ==> healthy == old(healthy)
    {
      hide RecordSize, Times, Accurate, Sized;
      if !open || |point.attributes| != |schema.attributes| {
        return false;
      }
      var k := 0;
      while k < |point.attributes|
        invariant 0 <= k <= |point.attributes|
        invariant forall i :: 0 <= i < k ==> point.attributes[i].kind == schema.attributes[i].kind
      {
        if point.attributes[k].kind != schema.attributes[k].kind {
          return false;
        }
        k := k + 1;
      }
      Successor(|points|, RecordSize(schema));
      ghost var before := Contents();
      buffered := buffered + RecordSize(schema);
      points := points + [point];
      assert Contents() == before + [point];
      ok := true;
      if buffered >= memoryLimit {
        ok := Flush();
      }
    }

    /** Writes one buffered point. */
    method PutPoint(point: TypedPoint) returns (ok: bool)
      modifies this`file, this`healthy
      ensures ok == healthy && (healthy ==> old(healthy))
      ensures ok ==> file == old(file) + RecordBytes(point)
      ensures |old(file)| <= |file|
    {
      ghost var start := file;
      ok := Put(point.source);
      if ok { ok := Put(point.stage); }
      if !ok {
        return;
      }
      ghost var values := file;
      assert values == start + (point.source + point.stage);
      var k := 0;
      assert point.attributes[..0] == [];
      while k < |point.attributes|
        invariant 0 <= k <= |point.attributes|
        invariant healthy && old(healthy) && |old(file)| <= |file|
        invariant file == values + ValuesBytes(point.attributes[..k])
      {
        ghost var before := file;
        ok := Put(point.attributes[k].bytes);
        if !ok {
          return;
        }
        ValuesNext(point.attributes, k);
        AttributeAppended(values, ValuesBytes(point.attributes[..k]), point.attributes[k].bytes);
        k := k + 1;
      }
      assert point.attributes[..k] == point.attributes;
      Associate(start, point.source + point.stage, ValuesBytes(point.attributes));
      ok := true;
    }

    /** Writes the buffered points one after another. */
    method PutPoints(ghost head: seq<byte>) returns (ok: bool)
      modifies this`file, this`healthy, this`pointCount
      ensures ok ==> points == [] || healthy
      ensures |old(file)| <= |file|
      ensures !ok ==> !healthy
      ensures healthy ==> old(healthy)
      ensures ok && old(file == head + RecordsBytes(written)) ==> file == head + RecordsBytes(written + points)
      ensures ok && old(pointCount == |written| % WORD) ==> pointCount == |written + points| % WORD
    {
      hide RecordsBytes, RecordBytes;
      ghost var sound, counted := file == head + RecordsBytes(written), pointCount == |written| % WORD;
      var k := 0;
      assert written + points[..0] == written;
      while k < |points|
        invariant 0 <= k <= |points| && (healthy ==> old(healthy))
        invariant k > 0 ==> healthy
        invariant |old(file)| <= |file|
        invariant sound ==> file == head + RecordsBytes(written + points[..k])
        invariant counted ==> pointCount == |written + points[..k]| % WORD
      {
        ok := PutPoint(points[k]);
        if !ok {
          return false;
        }
        pointCount := (pointCount + 1) % WORD;
        assert written + points[..k + 1] == (written + points[..k]) + [points[k]];
        RecordsNext(written + points[..k], points[k]);
        Associate(head, RecordsBytes(written + points[..k]), RecordBytes(points[k]));
        NextInWord(|written + points[..k]|);
        k := k + 1;
      }
      assert points[..k] == points;
      ok := true;
    }

    method Flush() returns (ok: bool)
      requires Valid()
      modifies this
      ensures Valid()
      ensures !old(open) ==> !ok && unchanged(this)
      ensures schema == old(schema) && tile == old(tile) && memoryLimit == old(memoryLimit) && open == old(open)
      ensures created == old(created)
      ensures healthy ==> old(healthy)
      ensures old(open) ==> ok == healthy
      ensures ok ==> points == [] && buffered == 0
      ensures ok && old(Sound()) ==> Sound() && Contents() == old(Contents())
      ensures buffered <= old(buffered)
    {
      hide RecordsBytes, HeadBytes, Writable, RecordBytes, RecordSize, Conforms;
      if !open {
        return false;
      }
      var start := |file|;
      ok := PutPoints(HeadOf());
      if !ok {
        return false;
      }
      assert Sound() ==> AllConform(written + points, schema);
      written := written + points;
      points := [];
      buffered := 0;
      assert Contents() == written;
      NoRecords(schema);
      ok := Sync();
      if !ok {
        return false;
      }
      bytesWritten := bytesWritten + |file| - start;
    }

    ghost function HeadOf(): seq<byte>
      reads this
    {
      if Writable(tile, schema) then HeadBytes(tile, schema) else []
    }

    method Close() returns (ok: bool)
      requires Valid()
      modifies this
      ensures Valid()
      ensures !old(open) ==> ok && unchanged(this)
      ensures schema == old(schema) && tile == old(tile)
      ensures ok ==> !open
      ensures healthy ==> old(healthy)
      ensures old(open) ==> ok == healthy
      ensures old(open) && ok ==> points == [] && buffered == 0
      ensures old(Sound()) && ok ==>
        && Writable(tile, schema) && AllConform(old(Contents()), schema)
        && file == SpoolBytes(tile, schema, old(Contents()))
        && bytesWritten == |file|
    {
      hide RecordsBytes, HeadBytes, Writable, RecordSize, Conforms, ToBytes;
      if !open {
        return true;
      }
      ghost var sound, contents := Sound(), Contents();
      ok := Flush();
      if !ok {
        return false;
      }
      assert sound ==> Sound() && written == contents;
      var start := |file|;
      ghost var before := file;
      ok := Put(FOOTER);
      if ok { ok := Put(ToBytes(pointCount, 8)); }
      if ok { ok := Sync(); }
      if !ok {
        headed := false;
        return false;
      }
      if sound {
        LowBytes(|contents|, 8);
        assert file == before + FooterBytes(|contents|);
      }
      bytesWritten := bytesWritten + |file| - start;
      open := false;
    }

    function BufferedBytes(): nat
      reads this
    {
      if created then buffered else 0
    }
  }

  /** Reads a spool back, point by point. */
  class TileSpoolReader {
    var attached: bool
    var healthy: bool
    var file: seq<byte>
    var at: nat
    var schema: Schema
    var pointsRead: nat
    var pointCount: nat
    var dataEnd: nat
    var recordSize: nat
    var complete: bool
    var bytesRead: nat

    /** The head was accepted; then how many points were delivered, and whether the footer was reached. */
    ghost var ready: bool
    ghost var dataStart: nat
    ghost var taken: nat
    ghost var finished: bool

    constructor ()
      ensures Valid() && !attached && !ready
    {
      attached, ready, complete := false, false, false;
    }

    ghost predicate Valid()
      reads this
    {
      && (ready ==> attached)
      && (complete ==> ready && finished)
      && (attached && healthy && !ready ==> at > dataEnd)
      && (ready ==> Placed())
    }

    /** Where in the file the reader stands. */
    ghost predicate Placed()
      reads this
    {
      var o := ReadOutcome(file);
      && healthy && o.Read? && o.schema == schema && recordSize == RecordSize(schema)
      && taken <= |o.points| && pointsRead == taken % WORD
      && dataStart + Times(|o.points|, recordSize) == dataEnd && dataEnd + FOOTER_SIZE == |file|
      && o.points == ParseRecords(file, dataStart, |o.points|, schema)
      && o.complete == (file[dataEnd..] == FooterBytes(|o.points|))
      && (if finished then at > dataEnd && taken == |o.points| && complete == o.complete
          else at == dataStart + Times(taken, recordSize))
      && (complete || !finished ==> bytesRead == at)
      && (complete ==> at == |file|)
    }

    method Get(n: nat) returns (ok: bool, bytes: seq<byte>)
      requires at <= |file|
      modifies this`at, this`healthy
      ensures ok == (old(healthy) && old(at) + n <= |file|)
      ensures ok ==> healthy && at == old(at) + n && bytes == file[old(at)..at]
      ensures !ok ==> !healthy && at == old(at)
    {
      ok := healthy && at + n <= |file|;
      if ok {
        bytes := file[at..at + n];
        at := at + n;
      } else {
        bytes, healthy := [], false;
      }
    }

    method ReadAttribute(ghost more: nat) returns (ok: bool, attribute: Attribute)
      requires at <= |file| && healthy
      modifies this`at, this`healthy
      ensures at <= |file| && (ok ==> healthy)
      ensures healthy ==> at > old(at)
      ensures ok ==> ParseAttributes(file, old(at), more + 1) == InFront([attribute], ParseAttributes(file, at, more))
      ensures !ok ==> ParseAttributes(file, old(at), more + 1) == None
    {
      hide FromBytes;
      attribute := Attribute([], 0);
      var size, name, kind;
      ok, size := Get(4);
      if !ok || FromBytes(size) > MAX_NAME {
        return false, attribute;
      }
      ok, name := Get(FromBytes(size));
      if ok {
        ok, kind := Get(1);
      }
      if !ok {
        return false, attribute;
      }
      attribute := Attribute(name, kind[0]);
    }

    method ReadAttributes(count: nat) returns (ok: bool, attributes: seq<Attribute>)
      requires at <= |file| && healthy
      modifies this`at, this`healthy
      ensures at <= |file|
      ensures healthy ==> at >= old(at)
      ensures ok ==> healthy && ParseAttributes(file, old(at), count) == Some((attributes, at))
      ensures !ok ==> ParseAttributes(file, old(at), count) == None
    {
      hide ParseAttributes;
      attributes := [];
      NothingInFront(ParseAttributes(file, at, count));
      var k := 0;
      while k < count
        invariant 0 <= k <= count && old(at) <= at <= |file| && healthy
        invariant ParseAttributes(file, old(at), count)
          == InFront(attributes, ParseAttributes(file, at, count - k))
      {
        var attribute;
        ok, attribute := ReadAttribute(count - k - 1);
        if !ok {
          return;
        }
        InFrontTwice(attributes, attribute, ParseAttributes(file, at, count - k - 1));
        attributes := attributes + [attribute];
        k := k + 1;
      }
      ParsedAll(file, at);
      assert attributes + [] == attributes;
      ok := true;
    }

    /** Reads the head of the file. */
    method ReadHead() returns (ok: bool, tile: TileId, schema: Schema)
      requires at == 0 && healthy
      modifies this`at, this`healthy
      ensures at <= |file| && (healthy ==> at > 0)
      ensures ok ==> healthy && ParseHead(file) == Some(Head(tile, schema, at))
      ensures !ok ==> ParseHead(file) == None
    {
      hide FromBytes, ParseAttributes, AsSigned;
      tile, schema := NO_TILE, Schema(0, 0, []);
      var header, version, space, level, x, y, attributeCount, attributes;
      ok, header := Get(8);
      if !ok || header != HEADER {
        return false, tile, schema;
      }
      ok, version := Get(4);
      if ok { ok, space := Get(1); }
      if ok { ok, level := Get(4); }
      if ok { ok, x := Get(8); }
      if ok { ok, y := Get(8); }
      if ok { ok, attributeCount := Get(4); }
      if !ok || FromBytes(attributeCount) > MAX_ATTRIBUTES {
        return false, tile, schema;
      }
      assert at == 37;
      ok, attributes := ReadAttributes(FromBytes(attributeCount));
      if !ok {
        return;
      }
      schema := Schema(FromBytes(version), space[0], attributes);
      tile := TileId(AsSigned(FromBytes(level), 4), AsSigned(FromBytes(x), 8), AsSigned(FromBytes(y), 8), 0);
      ok := schema.IsValid() && tile.IsValid();
    }

    /** Opens a file; none when it cannot be opened. */
    method Open(contents: Option<seq<byte>>) returns (ok: bool, tile: TileId, schema: Schema)
      modifies this
      ensures Valid() && ok == ready
      ensures ok <==> contents.Some? && ReadOutcome(contents.value).Read?
      ensures ok ==> file == contents.value && this.schema == schema && taken == 0 && !finished
      ensures ok ==> tile == ReadOutcome(file).id && schema == ReadOutcome(file).schema
    {
      hide ParseHead, ParseRecords, RecordSize, Times, RecordCount, FooterBytes, ReadOutcome;
      NoHeadRefused(contents);
      tile, schema := NO_TILE, Schema(0, 0, []);
      Reset();
      attached := contents.Some?;
      if !attached {
        return false, tile, schema;
      }
      file := contents.value;
      ok, tile, schema := ReadHead();
      if !ok {
        return;
      }
      ok := CheckLayout(Head(tile, schema, at));
      if ok {
        this.schema := schema;
        bytesRead := at;
        ready := true;
        NoRecords(schema);
      }
    }

    method Reset()
      modifies this
      ensures !ready && !finished && taken == 0 && !complete && dataEnd == at == 0 && healthy
      ensures pointsRead == pointCount == bytesRead == 0
    {
      ready, finished, taken, complete, dataEnd, at, healthy := false, false, 0, false, 0, 0, true;
      pointsRead, pointCount, bytesRead := 0, 0, 0;
    }

    /** Checks that whole records lie between the head and the place of the footer. */
    method CheckLayout(h: Head) returns (ok: bool)
      requires ParseHead(file) == Some(h) && at == h.dataStart && 0 < at <= |file| && dataEnd == 0
      modifies this`at, this`recordSize, this`dataEnd, this`dataStart
      ensures ok <==> ReadOutcome(file).Read?
      ensures !ok ==> at > dataEnd
      ensures ok ==> at == dataStart == old(at) && recordSize == RecordSize(h.schema) && dataEnd + FOOTER_SIZE == |file|
      ensures ok ==> OutcomeAt(file, h, dataEnd)
    {
      hide ParseHead, ParseRecords, RecordSize, Times, RecordCount, FooterBytes, ReadOutcome;
      recordSize := RecordSize(h.schema);
      dataStart := at;
      CountedRecords(file, h);
      if |file| - at < FOOTER_SIZE || (|file| - at - FOOTER_SIZE) % recordSize != 0 {
        at := |file|;
        return false;
      }
      dataEnd := |file| - FOOTER_SIZE;
      OutcomeOf(file, h);
      ok := true;
    }

    method ReadValues() returns (ok: bool, values: seq<Value>)
      requires healthy && at + AttributeSizes(schema.attributes) <= |file|
      modifies this`at, this`healthy
      ensures ok && healthy && at == old(at) + AttributeSizes(schema.attributes)
      ensures values == ParseValues(file, old(at), schema.attributes)
    {
      values, ok := [], true;
      var attributes := schema.attributes;
      var k := 0;
      while k < |attributes|
        invariant 0 <= k <= |attributes| && healthy && ok
        invariant at + AttributeSizes(attributes[k..]) == old(at) + AttributeSizes(attributes) <= |file|
        invariant values + ParseValues(file, at, attributes[k..]) == ParseValues(file, old(at), attributes)
      {
        assert attributes[k..][1..] == attributes[k + 1..];
        ghost var rest := ParseValues(file, at, attributes[k..]);
        var bytes;
        ok, bytes := Get(AttributeSize(attributes[k].kind));
        assert rest == [Value(attributes[k].kind, bytes)] + ParseValues(file, at, attributes[k + 1..]);
        values := values + [Value(attributes[k].kind, bytes)];
        k := k + 1;
      }
    }

    method ReadRecord() returns (ok: bool, point: SpoolPoint)
      requires healthy && at + RecordSize(schema) <= |file|
      modifies this`at, this`healthy
      ensures ok && healthy && at == old(at) + RecordSize(schema)
      ensures point == ParseRecord(file, old(at), schema)
    {
      hide AttributeSizes, ParseValues;
      var source, stage, values;
      ok, source := Get(POSITION_SIZE);
      if ok { ok, stage := Get(POSITION_SIZE); }
      if ok { ok, values := ReadValues(); }
      point := SpoolPoint(source, stage, values);
    }

    method ReadFooter() returns (ok: bool)
      requires healthy && at + FOOTER_SIZE == |file| && pointsRead < WORD
      modifies this`at, this`healthy, this`pointCount
      ensures healthy && old(at) < at <= |file|
      ensures ok <==> file[old(at)..] == FooterBytes(pointsRead)
      ensures ok ==> at == |file|
    {
      hide FromBytes;
      var footer, count;
      ok, footer := Get(|FOOTER|);
      if !ok || footer != FOOTER {
        FooterParts(file[old(at)..], pointsRead);
        return false;
      }
      ok, count := Get(8);
      FooterParts(file[old(at)..], pointsRead);
      assert file[old(at)..][8..] == count;
      if !ok || FromBytes(count) != pointsRead {
        return false;
      }
      pointCount := FromBytes(count);
    }

    method TakeRecord() returns (got: bool, point: SpoolPoint)
      requires Valid() && ready && !finished && taken < |ReadOutcome(file).points|
      modifies this`at, this`healthy, this`bytesRead, this`pointsRead, this`taken
      ensures Valid() && got && taken == old(taken) + 1
      ensures point == ReadOutcome(file).points[old(taken)]
    {
      hide ReadOutcome, ParseRecords, RecordSize, ParseRecord, FooterBytes;
      var position := at;
      NextRecord(file, dataStart, |ReadOutcome(file).points|, taken, schema);
      got, point := dataEnd - at >= recordSize, SpoolPoint([], [], []);
      if got {
        got, point := ReadRecord();
      }
      bytesRead := bytesRead + at - position;
      pointsRead := (pointsRead + 1) % WORD;
      NextInWord(taken);
      taken := taken + 1;
    }

    /** Delivers the next point. At the end, and for ever after, delivers nothing; the spool is then complete when
        its footer counts the points delivered. */
    method ReadNext() returns (got: bool, point: SpoolPoint)
      requires Valid()
      modifies this
      ensures Valid()
      ensures ready == old(ready) && file == old(file) && schema == old(schema)
      ensures got <==> old(ready) && !old(finished) && old(taken) < |ReadOutcome(file).points|
      ensures got ==> point == ReadOutcome(file).points[old(taken)] && taken == old(taken) + 1 && !finished
      ensures !got ==> taken == old(taken)
      ensures !got && ready ==> finished && taken == |ReadOutcome(file).points|
      ensures complete <==> ready && finished && ReadOutcome(file).complete
      ensures complete ==> bytesRead == |file|
    {
      hide ReadOutcome, ParseRecords, RecordSize, ParseRecord, FooterBytes, Times;
      got, point := false, SpoolPoint([], [], []);
      if !attached || !healthy || complete {
        return;
      }
      ghost var o := ReadOutcome(file);
      RecordsTakeSpace(schema);
      if ready {
        Before(taken, |o.points|, recordSize);
      }
      if at > dataEnd {
        return;
      }
      if at == dataEnd {
        var start := at;
        LowFooter(taken);
        complete := ReadFooter();
        finished := true;
        if complete {
          bytesRead := bytesRead + at - start;
        }
        return;
      }
      got, point := TakeRecord();
    }

    function IsComplete(): bool
      reads this
    {
      attached && complete
    }
  }

  /** Reads a spool to its end. */
  method ReadAll(contents: Option<seq<byte>>) returns (attached: bool, tile: TileId, schema: Schema,
                                                       points: seq<SpoolPoint>, complete: bool, bytesRead: nat)
    ensures attached <==> contents.Some? && ReadOutcome(contents.value).Read?
    ensures attached ==> Read(tile, schema, points, complete) == ReadOutcome(contents.value)
    ensures attached && complete ==> bytesRead == |contents.value|
  {
    hide ReadOutcome, TileSpoolReader.Placed;
    var reader := new TileSpoolReader();
    points, complete, bytesRead := [], false, 0;
    attached, tile, schema := reader.Open(contents);
    if !attached {
      return;
    }
    ghost var o := ReadOutcome(contents.value);
    var got, point := reader.ReadNext();
    while got
      invariant reader.Valid() && reader.ready && reader.file == contents.value
      invariant reader.taken == |points| + (if got then 1 else 0) <= |o.points|
      invariant points == o.points[..|points|] && (got ==> point == o.points[|points|])
      invariant !got ==> reader.finished && |points| == |o.points|
      invariant reader.complete <==> reader.finished && o.complete
      invariant reader.complete ==> reader.bytesRead == |contents.value|
      decreases |o.points| - |points|, got
    {
      points := points + [point];
      got, point := reader.ReadNext();
    }
    complete, bytesRead := reader.IsComplete(), reader.bytesRead;
  }

  // ----- About reading

  /** Parsing that goes on after some attributes. */
  function InFront(attributes: seq<Attribute>, rest: Option<(seq<Attribute>, nat)>): Option<(seq<Attribute>, nat)>
  {
    match rest
    case None => None
    case Some((more, end)) => Some((attributes + more, end))
  }

  lemma NothingInFront(rest: Option<(seq<Attribute>, nat)>)
    ensures InFront([], rest) == rest
  {
    if rest.Some? {
      assert [] + rest.value.0 == rest.value.0;
    }
  }

  lemma InFrontTwice(attributes: seq<Attribute>, next: Attribute, rest: Option<(seq<Attribute>, nat)>)
    ensures InFront(attributes, InFront([next], rest)) == InFront(attributes + [next], rest)
  {
    if rest.Some? {
      assert attributes + ([next] + rest.value.0) == attributes + [next] + rest.value.0;
    }
  }

  /** Records up to `dataEnd`, and then the footer, follow the head. */
  ghost predicate OutcomeAt(file: seq<byte>, h: Head, dataEnd: nat)
  {
    && ReadOutcome(file).Read? && dataEnd <= |file|
    && var n := |ReadOutcome(file).points|;
    && h.dataStart + Times(n, RecordSize(h.schema)) == dataEnd
    && ReadOutcome(file) == Read(h.id, h.schema, ParseRecords(file, h.dataStart, n, h.schema),
                                 file[dataEnd..] == FooterBytes(n))
  }

  lemma OutcomeOf(file: seq<byte>, h: Head)
    requires ParseHead(file) == Some(h) && RecordCount(|file|, h).Some?
    ensures |file| >= FOOTER_SIZE && OutcomeAt(file, h, |file| - FOOTER_SIZE)
  {
    RecordCountLaw(|file|, h, RecordCount(|file|, h).value);
  }

  lemma ParsedAll(file: seq<byte>, at: nat)
    requires at <= |file|
    ensures ParseAttributes(file, at, 0) == Some(([], at))
  {
  }

  lemma CountedRecords(file: seq<byte>, h: Head)
    requires ParseHead(file) == Some(h)
    ensures RecordSize(h.schema) > 0
    ensures var between := |file| - h.dataStart - FOOTER_SIZE;
      && (RecordCount(|file|, h).Some? <==> between >= 0 && between % RecordSize(h.schema) == 0)
      && (ReadOutcome(file).Read? <==> RecordCount(|file|, h).Some?)
  {
  }

  lemma RecordsTakeSpace(schema: Schema)
    ensures RecordSize(schema) > 0
  {
  }

  lemma NoHeadRefused(contents: Option<seq<byte>>)
    ensures contents.Some? && ParseHead(contents.value).None? ==> ReadOutcome(contents.value) == Refused
  {
  }

  lemma FooterParts(bytes: seq<byte>, count: nat)
    requires |bytes| == FOOTER_SIZE && count < WORD
    ensures bytes == FooterBytes(count) <==> bytes[..8] == FOOTER && FromBytes(bytes[8..]) == count
  {
    NumberRoundTrip(bytes[8..]);
    BytesRoundTrip(count, 8);
    hide FromBytes, ToBytes, Pow256;
    assert bytes == bytes[..8] + bytes[8..];
    assert FooterBytes(count)[..8] == FOOTER && FooterBytes(count)[8..] == ToBytes(count, 8);
  }

  lemma LowFooter(n: nat)
    ensures FooterBytes(n % WORD) == FooterBytes(n)
  {
    LowBytes(n, 8);
  }

  /** Records before the end take less than all of them. */
  lemma Before(taken: nat, count: nat, size: nat)
    requires taken <= count && size > 0
    ensures Times(taken, size) <= Times(count, size)
    ensures Times(taken, size) == Times(count, size) <==> taken == count
    ensures taken < count ==> Times(taken, size) + size <= Times(count, size)
  {
    if taken < count {
      Ordered(taken + 1, count, size);
      Successor(taken, size);
    }
  }

  lemma {:induction false} NextRecord(file: seq<byte>, at: nat, count: nat, k: nat, schema: Schema)
    requires k < count && at + Times(count, RecordSize(schema)) <= |file|
    ensures Times(k, RecordSize(schema)) + RecordSize(schema) <= Times(count, RecordSize(schema))
    ensures ParseRecords(file, at, count, schema)[k] == ParseRecord(file, at + Times(k, RecordSize(schema)), schema)
    ensures Times(k + 1, RecordSize(schema)) == Times(k, RecordSize(schema)) + RecordSize(schema)
    decreases count
  {
    hide ParseRecord, RecordSize, Times;
    Successor(k, RecordSize(schema));
    Successor(count - 1, RecordSize(schema));
    if k < count - 1 {
      NextRecord(file, at, count - 1, k, schema);
    }
  }

  // ----- About what was written

  /** Names whose length fits the field it is written in. */
  predicate NamesFit(attributes: seq<Attribute>)
  {
    forall a :: a in attributes ==> |a.name| < 0x1_0000_0000
  }

  lemma NameTooLong(attributes: seq<Attribute>, k: nat)
    requires k < |attributes| && |attributes[k].name| >= 0x1_0000_0000
    ensures !NamesFit(attributes)
  {
    assert attributes[k] in attributes;
  }

  lemma {:induction false} AttributesNext(attributes: seq<Attribute>, k: nat)
    requires k < |attributes|
    ensures AttributesBytes(attributes[..k + 1]) == AttributesBytes(attributes[..k]) + AttributeBytes(attributes[k])
    ensures NamesFit(attributes[..k + 1]) <==> NamesFit(attributes[..k]) && |attributes[k].name| < 0x1_0000_0000
    decreases k
  {
    hide AttributeBytes;
    if k > 0 {
      AttributesNext(attributes[1..], k - 1);
      assert attributes[..k + 1][1..] == attributes[1..][..k] && attributes[..k][1..] == attributes[1..][..k - 1];
    }
    assert attributes[..k + 1] == attributes[..k] + [attributes[k]];
  }

  lemma {:induction false} ValuesNext(values: seq<Value>, k: nat)
    requires k < |values|
    ensures ValuesBytes(values[..k + 1]) == ValuesBytes(values[..k]) + values[k].bytes
    decreases k
  {
    if k > 0 {
      ValuesNext(values[1..], k - 1);
      assert values[..k + 1][1..] == values[1..][..k] && values[..k][1..] == values[1..][..k - 1];
    }
  }

  lemma AttributeAppended(start: seq<byte>, before: seq<byte>, next: seq<byte>)
    ensures start + before + next == start + (before + next)
  {
  }

  lemma HeadWritten(tile: TileId, schema: Schema)
    requires FitsWidths(tile) && tile.IsValid() && schema.IsValid() && NamesFit(schema.attributes)
    ensures Writable(tile, schema) && HeadBytes(tile, schema) + RecordsBytes([]) == HeadBytes(tile, schema)
    ensures HeadBytes(tile, schema) == FixedHead(tile, schema) + AttributesBytes(schema.attributes)
  {
    PowersOf256();
  }

  lemma NextInWord(n: nat)
    ensures (n % WORD + 1) % WORD == (n + 1) % WORD
  {
    PowersOf256();
  }

  lemma NoRecords(schema: Schema)
    ensures Times(0, RecordSize(schema)) == 0
  {
  }

  /** The bytes of a number are those of its remainder. */
  lemma {:induction false} LowBytes(n: nat, width: nat)
    ensures ToBytes(n % Pow256(width), width) == ToBytes(n, width)
    decreases width
  {
    if width > 0 {
      var low := Pow256(width - 1);
      LowBytes(n / 256, width - 1);
      RemainderParts(n, low);
    }
  }

  lemma RemainderParts(n: nat, low: nat)
    requires low > 0
    ensures (n % (256 * low)) % 256 == n % 256
    ensures (n % (256 * low)) / 256 == (n / 256) % low
  {
    var q, r := (n / 256) / low, (n / 256) % low;
    assert n / 256 == low * q + r;
    var d := n % 256;
    assert n == 256 * (low * q + r) + d;
    assert 256 * (low * q + r) == (256 * low) * q + 256 * r;
    Remainder(256 * low, q, 256 * r + d);
  }

  lemma Remainder(m: nat, q: nat, r: nat)
    requires r < m
    ensures (m * q + r) % m == r
  {
    var n := m * q + r;
    var a := n / m;
    if a > q { AtLeastOne(m, q, a); }
    if a < q { AtLeastOne(m, a, q); }
  }

  lemma AtLeastOne(m: nat, a: nat, b: nat)
    requires a < b
    ensures m * b >= m * a + m
  {
    assert m * b == m * a + m * (b - a);
    assert m * (b - a) == m + m * (b - a - 1);
  }
}
