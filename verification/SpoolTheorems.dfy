/** A spool written in any way and closed is read back as it was written. */
module SpoolTheorems {
  import opened Options
  import opened Bytes
  import opened ExtraByteNames
  import opened TileIds
  import opened SpoolFormat
  import opened SpoolOutcome
  import opened Spool

  datatype Step = Add(point: TypedPoint) | Sync

  function Added(steps: seq<Step>): seq<SpoolPoint>
  {
    if steps == [] then []
    else
      var last := steps[|steps| - 1];
      Added(steps[..|steps| - 1]) + if last.Add? then [last.point] else []
  }

  /** What only the file system can refuse: a tile and a schema that can be written, and points that match it. */
  predicate CanWrite(id: TileId, schema: Schema, memoryLimit: nat, steps: seq<Step>)
  {
    Writable(id, schema) && memoryLimit > 0 && AllConform(Added(steps), schema)
  }

  lemma {:induction false} AddedAt(steps: seq<Step>, k: nat)
    requires k < |steps| && steps[k].Add?
    ensures steps[k].point in Added(steps)
  {
    var m := |steps| - 1;
    if k < m {
      AddedAt(steps[..m], k);
    }
  }

  lemma NamesWritable(id: TileId, schema: Schema)
    requires FitsWidths(id)
    ensures Writable(id, schema) <==> id.IsValid() && schema.IsValid() && NamesFit(schema.attributes)
  {
    PowersOf256();
  }

  /** Writes a spool, in any order of appending and flushing, and reads it back. */
  method WriteAndReadBack(id: TileId, schema: Schema, memoryLimit: nat, steps: seq<Step>)
    returns (written: bool, trouble: bool, file: seq<Bytes.byte>, bytesWritten: nat, readable: bool, outcome: Outcome,
             bytesRead: nat)
    requires FitsWidths(id)
    ensures written ==> CanWrite(id, schema, memoryLimit, steps)
    ensures !trouble ==> (written <==> CanWrite(id, schema, memoryLimit, steps))
    ensures written ==> file == SpoolBytes(id, schema, Added(steps)) && bytesWritten == |file|
    ensures written ==> readable == WithinLimits(schema)
    ensures written && readable ==>
      outcome == Read(id.(z := 0), schema, Added(steps), true) && bytesRead == bytesWritten == |file|
  {
    hide FitsWidths, SpoolBytes, ReadOutcome, WithinLimits, Conforms, Sized;
    file, bytesWritten, readable, outcome, bytesRead := [], 0, false, Refused, 0;
    var writer := new TileSpoolWriter();
    written, trouble := WriteSteps(writer, id, schema, memoryLimit, steps);
    if !written {
      return;
    }
    file, bytesWritten := writer.file, writer.bytesWritten;
    SpoolRoundTrip(id, schema, Added(steps));
    var tile, readSchema, points, complete;
    readable, tile, readSchema, points, complete, bytesRead := ReadAll(Some(file));
    outcome := Read(tile, readSchema, points, complete);
  }

  method WriteSteps(writer: TileSpoolWriter, id: TileId, schema: Schema, memoryLimit: nat, steps: seq<Step>)
    returns (written: bool, trouble: bool)
    requires FitsWidths(id) && writer.Valid()
    modifies writer
    ensures written ==> CanWrite(id, schema, memoryLimit, steps)
    ensures !written && !trouble ==> !CanWrite(id, schema, memoryLimit, steps)
    ensures written ==>
      writer.file == SpoolBytes(id, schema, Added(steps)) && writer.bytesWritten == |writer.file|
  {
    hide FitsWidths, SpoolBytes, Sized, TileSpoolWriter.Accurate, NamesFit;
    NamesWritable(id, schema);
    written := writer.Open(id, schema, memoryLimit);
    trouble := !written && id.IsValid() && schema.IsValid() && memoryLimit > 0 && (!writer.created || !writer.healthy);
    if !written {
      return;
    }
    var k := 0;
    assert steps[..0] == [];
    while k < |steps|
      invariant 0 <= k <= |steps| && writer.Valid() && memoryLimit > 0
      invariant writer.open && writer.tile == id && writer.schema == schema
      invariant writer.healthy ==> writer.Sound() && writer.Contents() == Added(steps[..k])
    {
      if steps[k].Add? {
        written := writer.Append(steps[k].point);
      } else {
        written := writer.Flush();
      }
      if steps[k].Add? {
        AddedAt(steps, k);
      }
      if !written {
        trouble := !writer.healthy;
        return;
      }
      assert steps[..k + 1][..k] == steps[..k];
      k := k + 1;
    }
    assert steps[..k] == steps;
    written := writer.Close();
    trouble := !written;
  }

  // ----- The file in bytes

  /** A closed spool begins with its name and version, the coordinate space and the tile, and ends with its mark and count. */
  lemma SpoolMarks(id: TileId, schema: Schema, points: seq<SpoolPoint>)
    requires Writable(id, schema)
    ensures var file := SpoolBytes(id, schema, points);
      && |file| >= 53 && file[..8] == Ascii("USDGSP01") && file[8..12] == [2, 0, 0, 0] && file[12] == 1
      && SignedAt(file, 13, 4) == id.level && SignedAt(file, 17, 8) == id.x && SignedAt(file, 25, 8) == id.y
      && UnsignedAt(file, 33, 4) == |schema.attributes|
      && file[|file| - 16..|file| - 8] == Ascii("USDGEND1") && file[|file| - 8..] == ToBytes(|points|, 8)
  {
    MarksInAscii();
    VersionInBytes();
    hide Ascii, FromBytes, RecordsBytes, AttributesBytes, ToBytes, Pow256, FixedHead, UnsignedAt, SignedAt;
    var file, after := SpoolBytes(id, schema, points), AttributesBytes(schema.attributes) + RecordsBytes(points);
    FixedFields(id, schema, after + FooterBytes(|points|));
    assert file == FixedHead(id, schema) + (after + FooterBytes(|points|));
    UnsignedRead(file, 8, 4);
  }

  lemma VersionInBytes()
    ensures ToBytes(2, 4) == [2, 0, 0, 0]
  {
  }

  lemma MarksInAscii()
    ensures HEADER == Ascii("USDGSP01") && FOOTER == Ascii("USDGEND1")
  {
    assert forall i :: 0 <= i < 8 ==> HEADER[i] == Ascii("USDGSP01")[i];
    assert forall i :: 0 <= i < 8 ==> FOOTER[i] == Ascii("USDGEND1")[i];
  }

  /** What can be written at all, and what of it the reader takes. */
  lemma LimitsInNumbers(id: TileId, schema: Schema)
    requires FitsWidths(id)
    ensures Writable(id, schema) <==>
      && id.level >= 0 && schema.version == 2 && schema.coordinateSpace == 1 && |schema.attributes| < 0x1_0000_0000
      && forall a :: a in schema.attributes ==> 0 < |a.name| < 0x1_0000_0000 && a.kind <= 9
    ensures WithinLimits(schema) <==>
      |schema.attributes| <= 100_000 && forall a :: a in schema.attributes ==> |a.name| <= 1_048_576
  {
    PowersOf256();
    hide Pow256;
    SizesInBytes();
    assert forall a :: a in schema.attributes ==> (a.IsValid() <==> a.name != [] && a.kind <= 9);
  }

  /** The types in the order of their declaration: a 32-bit integer, a 16-bit one, unsigned ones of 8, 16, 32 and 64 bits,
      a single and a double, and pairs and triples of doubles. */
  lemma SizesInBytes()
    ensures forall kind: nat :: AttributeSize(kind) == if kind <= 9 then [4, 2, 1, 2, 4, 8, 4, 8, 2 * 8, 3 * 8][kind] else 0
  {
  }
}
