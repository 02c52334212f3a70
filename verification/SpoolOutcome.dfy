/** What reading a spool file comes to, and when that is what was written. */
module SpoolOutcome {
  import opened Options
  import opened Bytes
  import opened TileIds
  import opened SpoolFormat

  // ----- Records

  function ParseValues(file: seq<byte>, at: nat, attributes: seq<Attribute>): seq<Value>
    requires at + AttributeSizes(attributes) <= |file|
    decreases attributes
  {
    if attributes == [] then []
    else
      var size := AttributeSize(attributes[0].kind);
      [Value(attributes[0].kind, file[at..at + size])] + ParseValues(file, at + size, attributes[1..])
  }

  function ParseRecord(file: seq<byte>, at: nat, schema: Schema): SpoolPoint
    requires at + RecordSize(schema) <= |file|
  {
    SpoolPoint(file[at..at + POSITION_SIZE], file[at + POSITION_SIZE..at + 2 * POSITION_SIZE],
               ParseValues(file, at + 2 * POSITION_SIZE, schema.attributes))
  }

  lemma {:induction false} ValuesRoundTrip(before: seq<byte>, values: seq<Value>, attributes: seq<Attribute>,
                                           after: seq<byte>)
    requires ValuesMatch(values, attributes) && forall v :: v in values ==> |v.bytes| == AttributeSize(v.kind)
    ensures |ValuesBytes(values)| == AttributeSizes(attributes)
    ensures ParseValues(before + ValuesBytes(values) + after, |before|, attributes) == values
    decreases values
  {
    ValuesLength(values, attributes);
    if values != [] {
      var v, rest := values[0], values[1..];
      ValuesRoundTrip(before + v.bytes, rest, attributes[1..], after);
      Regroup(before, v.bytes, ValuesBytes(rest), after);
      Middle(before, v.bytes, ValuesBytes(rest) + after);
      hide ValuesBytes, AttributeSizes;
      assert values == [v] + rest;
    }
  }

  /** A written record is read back. */
  lemma RecordRoundTrip(before: seq<byte>, p: SpoolPoint, schema: Schema, after: seq<byte>)
    requires Conforms(p, schema)
    ensures |RecordBytes(p)| == RecordSize(schema)
    ensures ParseRecord(before + RecordBytes(p) + after, |before|, schema) == p
  {
    hide ValuesBytes, ParseValues;
    RecordLength(p, schema);
    var values := ValuesBytes(p.attributes);
    var file := before + RecordBytes(p) + after;
    assert file == before + p.source + (p.stage + (values + after));
    Middle(before, p.source, p.stage + (values + after));
    assert file == before + p.source + p.stage + (values + after);
    Middle(before + p.source, p.stage, values + after);
    assert file == (before + p.source + p.stage) + values + after;
    ValuesRoundTrip(before + p.source + p.stage, p.attributes, schema.attributes, after);
  }

  lemma {:induction false} ParsedValuesTyped(file: seq<byte>, at: nat, attributes: seq<Attribute>)
    requires at + AttributeSizes(attributes) <= |file|
    ensures var values := ParseValues(file, at, attributes);
      && ValuesMatch(values, attributes) && forall v :: v in values ==> |v.bytes| == AttributeSize(v.kind)
    decreases attributes
  {
    if attributes != [] {
      var size := AttributeSize(attributes[0].kind);
      ParsedValuesTyped(file, at + size, attributes[1..]);
      hide AttributeSize;
    }
  }

  /** The first `count` records from `at` on. */
  function ParseRecords(file: seq<byte>, at: nat, count: nat, schema: Schema): (r: seq<SpoolPoint>)
    requires at + Times(count, RecordSize(schema)) <= |file|
    ensures |r| == count
  {
    if count == 0 then []
    else
      Successor(count - 1, RecordSize(schema));
      ParseRecords(file, at, count - 1, schema)
      + [ParseRecord(file, at + Times(count - 1, RecordSize(schema)), schema)]
  }

  /** The records written between `before` and `after` are read back. */
  ghost predicate RecordsReadBack(before: seq<byte>, points: seq<SpoolPoint>, schema: Schema, after: seq<byte>)
  {
    var file := before + RecordsBytes(points) + after;
    && |before| + Times(|points|, RecordSize(schema)) <= |file|
    && ParseRecords(file, |before|, |points|, schema) == points
  }

  lemma LastReadBack(before: seq<byte>, points: seq<SpoolPoint>, p: SpoolPoint, schema: Schema, after: seq<byte>)
    requires AllConform(points, schema) && Conforms(p, schema)
    requires RecordsReadBack(before, points, schema, RecordBytes(p) + after)
    ensures RecordsReadBack(before, points + [p], schema, after)
  {
    RecordsNext(points, p);
    RecordsLength(points, schema);
    Successor(|points|, RecordSize(schema));
    hide Times, RecordBytes, RecordsBytes, ParseRecord, Conforms, RecordSize;
    Regroup(before, RecordsBytes(points), RecordBytes(p), after);
    RecordRoundTrip(before + RecordsBytes(points), p, schema, after);
  }

  lemma {:induction false} RecordsRoundTrip(before: seq<byte>, points: seq<SpoolPoint>, schema: Schema, after: seq<byte>)
    requires AllConform(points, schema)
    ensures RecordsReadBack(before, points, schema, after)
    decreases points
  {
    if points != [] {
      hide RecordBytes, RecordsReadBack, Conforms;
      var m := |points| - 1;
      RecordsRoundTrip(before, points[..m], schema, RecordBytes(points[m]) + after);
      LastReadBack(before, points[..m], points[m], schema, after);
      assert points == points[..m] + [points[m]];
    }
  }

  /** Whatever is read has the types of the schema. */
  lemma {:induction false} ParsedConforms(file: seq<byte>, at: nat, count: nat, schema: Schema)
    requires at + Times(count, RecordSize(schema)) <= |file|
    ensures AllConform(ParseRecords(file, at, count, schema), schema)
    decreases count
  {
    if count > 0 {
      Successor(count - 1, RecordSize(schema));
      ParsedConforms(file, at, count - 1, schema);
      var last := at + Times(count - 1, RecordSize(schema));
      ParsedValuesTyped(file, last + 2 * POSITION_SIZE, schema.attributes);
      assert Conforms(ParseRecord(file, last, schema), schema);
    }
  }

  // ----- The whole file

  datatype Outcome =
    | Refused
    | Read(id: TileId, schema: Schema, points: seq<SpoolPoint>, complete: bool)

  /** How many whole records lie between the head and the place of the footer. */
  function RecordCount(size: nat, h: Head): Option<nat>
  {
    var between := size - h.dataStart - FOOTER_SIZE;
    if between >= 0 && between % RecordSize(h.schema) == 0 then Some(between / RecordSize(h.schema)) else None
  }

  lemma RecordCountLaw(size: nat, h: Head, n: nat)
    ensures RecordCount(size, h) == Some(n) <==> size == h.dataStart + Times(n, RecordSize(h.schema)) + FOOTER_SIZE
  {
    var r := RecordSize(h.schema);
    if size == h.dataStart + Times(n, r) + FOOTER_SIZE {
      DivideProduct(n, r);
    }
  }

  lemma DivideProduct(n: nat, r: nat)
    requires r > 0
    ensures (n * r) % r == 0 && (n * r) / r == n
  {
    assert n * r == r * n + 0;
    if (n * r) / r < n {
      Ordered((n * r) / r + 1, n, r);
    } else if (n * r) / r > n {
      Ordered(n + 1, (n * r) / r, r);
    }
  }

  lemma Ordered(a: nat, b: nat, r: nat)
    requires a <= b
    ensures Times(a, r) <= Times(b, r)
  {
  }

  /** What the reader delivers from a file until it stops, and whether it then calls the spool complete. */
  function ReadOutcome(file: seq<byte>): Outcome
  {
    match ParseHead(file)
    case None => Refused
    case Some(h) =>
      match RecordCount(|file|, h)
      case None => Refused
      case Some(n) =>
        RecordCountLaw(|file|, h, n);
        Read(h.id, h.schema, ParseRecords(file, h.dataStart, n, h.schema),
             file[|file| - FOOTER_SIZE..] == FooterBytes(n))
  }

  lemma Ends(head: seq<byte>, records: seq<byte>, last: seq<byte>)
    ensures head + records + last == head + (records + last)
    ensures (head + records + last)[|head| + |records|..] == last
  {
  }

  lemma ReadConforms(file: seq<byte>)
    ensures var o := ReadOutcome(file); o.Read? ==> AllConform(o.points, o.schema)
  {
    hide ParseHead, ParseRecords, RecordSize, Times, Conforms;
    var o := ReadOutcome(file);
    if o.Read? {
      var h := ParseHead(file).value;
      var n := RecordCount(|file|, h).value;
      RecordCountLaw(|file|, h, n);
      ParsedConforms(file, h.dataStart, n, h.schema);
    }
  }

  lemma HeadReads(id: TileId, schema: Schema, points: seq<SpoolPoint>, last: seq<byte>)
    requires Writable(id, schema) && AllConform(points, schema) && |last| == FOOTER_SIZE
    ensures var file := HeadBytes(id, schema) + RecordsBytes(points) + last;
      ReadOutcome(file) == if WithinLimits(schema) then Read(id.(z := 0), schema, points, last == FooterBytes(|points|))
                           else Refused
  {
    hide Times, HeadBytes, RecordsBytes, FooterBytes, ParseHead, ParseRecords, RecordCount, Conforms, RecordSize,
         WithinLimits;
    var head, records := HeadBytes(id, schema), RecordsBytes(points);
    var file := head + records + last;
    HeadRoundTrip(id, schema, records + last);
    Ends(head, records, last);
    RecordsLength(points, schema);
    RecordsRoundTrip(head, points, schema, last);
    if WithinLimits(schema) {
      RecordCountLaw(|file|, Head(id.(z := 0), schema, |head|), |points|);
    }
  }

  /** Reading a closed spool gives the written points, completely, exactly when the schema is within the reader's
      limits; the tile comes back without its z. */
  lemma SpoolRoundTrip(id: TileId, schema: Schema, points: seq<SpoolPoint>)
    requires Writable(id, schema) && AllConform(points, schema)
    ensures ReadOutcome(SpoolBytes(id, schema, points))
      == if WithinLimits(schema) then Read(id.(z := 0), schema, points, true) else Refused
  {
    HeadReads(id, schema, points, FooterBytes(|points|));
  }

  // ----- Truncation

  /** The record after the first `m` begins with the bytes of a footer that counts `m` points. */
  predicate MimicsFooter(points: seq<SpoolPoint>, m: nat)
  {
    m < |points| && |RecordBytes(points[m])| >= FOOTER_SIZE && RecordBytes(points[m])[..FOOTER_SIZE] == FooterBytes(m)
  }

  /** The length of a spool cut so that `m` records remain between the head and the last sixteen bytes. */
  function CutLength(id: TileId, schema: Schema, m: nat): nat
    requires Writable(id, schema)
  {
    |HeadBytes(id, schema)| + Times(m, RecordSize(schema)) + FOOTER_SIZE
  }

  /** Cutting a file does not change a head that can still be read. */
  lemma HeadSurvives(file: seq<byte>, n: nat)
    requires n <= |file| && ParseHead(file[..n]).Some?
    ensures ParseHead(file) == ParseHead(file[..n])
  {
    hide HeadBytes, ParseHead;
    var h := ParseHead(file[..n]).value;
    ParsedHeadBytes(file[..n]);
    ParsedHasNoDepth(file[..n]);
    assert file[..n][..h.dataStart] == file[..h.dataStart];
    var head := HeadBytes(h.id, h.schema);
    HeadRoundTrip(h.id, h.schema, file[h.dataStart..]);
    assert file == head + file[h.dataStart..];
  }

  lemma ParsedHasNoDepth(file: seq<byte>)
    requires ParseHead(file).Some?
    ensures ParseHead(file).value.id.z == 0
  {
  }

  /** What lies in front of the cut. */
  lemma CutInRecord(id: TileId, schema: Schema, points: seq<SpoolPoint>, m: nat)
    requires Writable(id, schema) && AllConform(points, schema) && m < |points|
    ensures FOOTER_SIZE <= |RecordBytes(points[m])| && CutLength(id, schema, m) <= |SpoolBytes(id, schema, points)|
    ensures SpoolBytes(id, schema, points)[..CutLength(id, schema, m)]
      == HeadBytes(id, schema) + RecordsBytes(points[..m]) + RecordBytes(points[m])[..FOOTER_SIZE]
  {
    hide HeadBytes, RecordBytes, RecordsBytes, Conforms;
    var head, p := HeadBytes(id, schema), points[m];
    RecordLength(p, schema);
    RecordsLength(points[..m], schema);
    RecordsNext(points[..m], p);
    RecordsConcat(points[..m + 1], points[m + 1..]);
    assert points == points[..m + 1] + points[m + 1..] && points[..m + 1] == points[..m] + [p];
    var tail := RecordsBytes(points[m + 1..]) + FooterBytes(|points|);
    PrefixOf(head, RecordsBytes(points[..m]), RecordBytes(p), RecordsBytes(points[m + 1..]), FooterBytes(|points|));
  }

  lemma PrefixOf(head: seq<byte>, a: seq<byte>, b: seq<byte>, c: seq<byte>, d: seq<byte>)
    requires |b| >= FOOTER_SIZE
    ensures var file, n := head + (a + b + c) + d, |head| + |a| + FOOTER_SIZE;
      n <= |file| && file[..n] == head + a + b[..FOOTER_SIZE]
  {
    var file := head + (a + b + c) + d;
    assert file == head + a + (b + (c + d));
    assert (b + (c + d))[..FOOTER_SIZE] == b[..FOOTER_SIZE];
  }

  /** A spool cut where `m` records and sixteen bytes remain reads as those records; it is taken for complete
      exactly when the next record begins like their footer. */
  lemma CutOutcome(id: TileId, schema: Schema, points: seq<SpoolPoint>, m: nat)
    requires Writable(id, schema) && AllConform(points, schema) && m < |points|
    ensures CutLength(id, schema, m) <= |SpoolBytes(id, schema, points)|
    ensures ReadOutcome(SpoolBytes(id, schema, points)[..CutLength(id, schema, m)])
      == if WithinLimits(schema) then Read(id.(z := 0), schema, points[..m], MimicsFooter(points, m)) else Refused
  {
    hide HeadBytes, RecordBytes, RecordsBytes, Conforms, ReadOutcome, SpoolBytes;
    CutInRecord(id, schema, points, m);
    HeadReads(id, schema, points[..m], RecordBytes(points[m])[..FOOTER_SIZE]);
  }

  /** A proper prefix of a closed spool that can be read at all is cut where some records and sixteen bytes remain. */
  lemma ReadableCut(id: TileId, schema: Schema, points: seq<SpoolPoint>, n: nat) returns (m: nat)
    requires Writable(id, schema) && AllConform(points, schema)
    requires n < |SpoolBytes(id, schema, points)| && ReadOutcome(SpoolBytes(id, schema, points)[..n]) != Refused
    ensures WithinLimits(schema) && m < |points| && n == CutLength(id, schema, m)
  {
    hide HeadBytes, RecordBytes, RecordsBytes, Conforms, ParseHead, ParseRecords, RecordCount, RecordSize, WithinLimits, Times, FooterBytes;
    var file := SpoolBytes(id, schema, points);
    HeadSurvives(file, n);
    HeadRoundTrip(id, schema, RecordsBytes(points) + FooterBytes(|points|));
    assert file == HeadBytes(id, schema) + (RecordsBytes(points) + FooterBytes(|points|));
    var h := ParseHead(file).value;
    m := RecordCount(n, h).value;
    RecordCountLaw(n, h, m);
    RecordsLength(points, schema);
    if m >= |points| {
      Ordered(|points|, m, RecordSize(schema));
    }
  }

  /** A proper prefix of a closed spool passes for a complete one exactly when it is cut sixteen bytes into a record
      that begins like the footer of the records before it. */
  lemma TruncationDetected(id: TileId, schema: Schema, points: seq<SpoolPoint>, n: nat)
    requires Writable(id, schema) && AllConform(points, schema)
    requires n < |SpoolBytes(id, schema, points)|
    ensures var o := ReadOutcome(SpoolBytes(id, schema, points)[..n]);
      o.Read? && o.complete <==>
      WithinLimits(schema) && exists m: nat :: MimicsFooter(points, m) && n == CutLength(id, schema, m)
  {
    hide HeadBytes, RecordBytes, Conforms, ReadOutcome, SpoolBytes, CutLength, WithinLimits, MimicsFooter;
    var o := ReadOutcome(SpoolBytes(id, schema, points)[..n]);
    if o.Read? && o.complete {
      var m := ReadableCut(id, schema, points, n);
      CutOutcome(id, schema, points, m);
      assert MimicsFooter(points, m);
    }
    if WithinLimits(schema) && exists m: nat :: MimicsFooter(points, m) && n == CutLength(id, schema, m) {
      var m: nat :| MimicsFooter(points, m) && n == CutLength(id, schema, m);
      MimicBelow(points, m);
      CutOutcome(id, schema, points, m);
    }
  }

  lemma MimicBelow(points: seq<SpoolPoint>, m: nat)
    requires MimicsFooter(points, m)
    ensures m < |points|
  {
  }

  /** It can happen: a first point whose source position begins with the bytes of an empty spool's footer. The spool cut
      within it passes for complete, and without points. */
  lemma TruncationMissed(id: TileId, stage: seq<byte>, rest: seq<byte>)
    requires id.IsValid() && FitsWidths(id) && |stage| == POSITION_SIZE && |rest| == POSITION_SIZE - FOOTER_SIZE
    ensures var schema := Schema(SCHEMA_VERSION, SOURCE_AND_STAGE, []);
      var points := [SpoolPoint(FooterBytes(0) + rest, stage, [])];
      && Writable(id, schema) && AllConform(points, schema)
      && CutLength(id, schema, 0) < |SpoolBytes(id, schema, points)|
      && ReadOutcome(SpoolBytes(id, schema, points)[..CutLength(id, schema, 0)]) == Read(id.(z := 0), schema, [], true)
  {
    hide HeadBytes, ReadOutcome, FooterBytes;
    var schema := Schema(SCHEMA_VERSION, SOURCE_AND_STAGE, []);
    var points := [SpoolPoint(FooterBytes(0) + rest, stage, [])];
    assert RecordBytes(points[0])[..FOOTER_SIZE] == FooterBytes(0);
    CutOutcome(id, schema, points, 0);
    RecordsLength(points, schema);
    assert points[..0] == [];
  }

  /** The other way to read less than was written cannot happen: every point a cut spool delivers is the point
      written at its place. */
  lemma CutDeliversPrefix(id: TileId, schema: Schema, points: seq<SpoolPoint>, n: nat)
    requires Writable(id, schema) && AllConform(points, schema)
    requires n < |SpoolBytes(id, schema, points)|
    ensures var o := ReadOutcome(SpoolBytes(id, schema, points)[..n]);
      o.Read? ==> o.id == id.(z := 0) && o.schema == schema && o.points < points
  {
    hide HeadBytes, RecordBytes, Conforms, ReadOutcome, SpoolBytes, CutLength, WithinLimits, MimicsFooter;
    var o := ReadOutcome(SpoolBytes(id, schema, points)[..n]);
    if o.Read? {
      var m := ReadableCut(id, schema, points, n);
      CutOutcome(id, schema, points, m);
    }
  }
}
