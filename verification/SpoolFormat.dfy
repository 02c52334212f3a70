/** The byte layout of a tile spool and the parser of its head. Values are kept as the bytes they occupy in
    memory, which is how they are written. */
module SpoolFormat {
  import opened Options
  import opened Bytes
  import opened TileIds

  const HEADER: seq<byte> := [85, 83, 68, 71, 83, 80, 48, 49]
  const FOOTER: seq<byte> := [85, 83, 68, 71, 69, 78, 68, 49]
  const FOOTER_SIZE := 16
  const SCHEMA_VERSION := 2
  const SOURCE_AND_STAGE := 1
  const MAX_NAME := 1024 * 1024
  const MAX_ATTRIBUTES := 100000
  const POSITION_SIZE := 24

  /** The size of an attribute of each type, in the order the types are declared; zero for no type. */
  function AttributeSize(kind: nat): nat
  {
    if kind == 0 then 4 else if kind == 1 then 2 else if kind == 2 then 1 else if kind == 3 then 2
    else if kind == 4 then 4 else if kind == 5 then 8 else if kind == 6 then 4 else if kind == 7 then 8
    else if kind == 8 then 16 else if kind == 9 then 24 else 0
  }

  datatype Attribute = Attribute(name: seq<byte>, kind: byte) {
    predicate IsValid() { name != [] && AttributeSize(kind) != 0 }
  }

  datatype Schema = Schema(version: nat, coordinateSpace: nat, attributes: seq<Attribute>) {
    predicate IsValid()
    {
      && version == SCHEMA_VERSION && coordinateSpace == SOURCE_AND_STAGE
      && |attributes| < Pow256(4)
      && forall a :: a in attributes ==> a.IsValid()
    }
  }

  function AttributeSizes(attributes: seq<Attribute>): nat
  {
    if attributes == [] then 0
    else AttributeSize(attributes[0].kind) + AttributeSizes(attributes[1..])
  }

  function RecordSize(schema: Schema): nat { 2 * POSITION_SIZE + AttributeSizes(schema.attributes) }

  /** A point as it lies in memory: two positions and one value for each attribute. */
  datatype Value = Value(kind: byte, bytes: seq<byte>)

  datatype SpoolPoint = SpoolPoint(source: seq<byte>, stage: seq<byte>, attributes: seq<Value>)

  predicate ValuesMatch(values: seq<Value>, attributes: seq<Attribute>)
  {
    && |values| == |attributes|
    && forall i :: 0 <= i < |values| ==> values[i].kind == attributes[i].kind
  }

  /** The bytes have the sizes that the types give them. */
  predicate Sized(p: SpoolPoint)
  {
    && |p.source| == POSITION_SIZE && |p.stage| == POSITION_SIZE
    && forall v :: v in p.attributes ==> |v.bytes| == AttributeSize(v.kind)
  }

  predicate Conforms(p: SpoolPoint, schema: Schema)
  {
    ValuesMatch(p.attributes, schema.attributes) && Sized(p)
  }

  /** A tile identity whose fields fit the widths they are written with. */
  predicate FitsWidths(id: TileId)
  {
    FitsSigned(id.level, 4) && FitsSigned(id.x, 8) && FitsSigned(id.y, 8)
  }

  // ----- Writing

  function AttributeBytes(a: Attribute): seq<byte>
  {
    ToBytes(|a.name|, 4) + a.name + [a.kind]
  }

  function AttributesBytes(attributes: seq<Attribute>): seq<byte>
  {
    if attributes == [] then [] else AttributeBytes(attributes[0]) + AttributesBytes(attributes[1..])
  }

  /** The seven fields of a head's fixed part, put together. */
  function Join(h: seq<byte>, v: seq<byte>, c: byte, l: seq<byte>, x: seq<byte>, y: seq<byte>, n: seq<byte>): seq<byte>
  {
    h + v + [c] + l + x + y + n
  }

  function FixedHead(id: TileId, schema: Schema): seq<byte>
    requires FitsWidths(id) && 0 <= schema.coordinateSpace < 256
  {
    Join(HEADER, ToBytes(schema.version, 4), schema.coordinateSpace, ToBytes(AsUnsignedWord(id.level, 4), 4),
         ToBytes(AsUnsignedWord(id.x, 8), 8), ToBytes(AsUnsignedWord(id.y, 8), 8), ToBytes(|schema.attributes|, 4))
  }

  function HeadBytes(id: TileId, schema: Schema): seq<byte>
    requires FitsWidths(id) && 0 <= schema.coordinateSpace < 256
  {
    FixedHead(id, schema) + AttributesBytes(schema.attributes)
  }

  function ValuesBytes(values: seq<Value>): seq<byte>
  {
    if values == [] then [] else values[0].bytes + ValuesBytes(values[1..])
  }

  function RecordBytes(p: SpoolPoint): seq<byte>
  {
    p.source + p.stage + ValuesBytes(p.attributes)
  }

  function RecordsBytes(points: seq<SpoolPoint>): seq<byte>
  {
    if points == [] then [] else RecordsBytes(points[..|points| - 1]) + RecordBytes(points[|points| - 1])
  }

  function FooterBytes(count: nat): (r: seq<byte>)
    ensures |r| == FOOTER_SIZE
  {
    FOOTER + ToBytes(count, 8)
  }

  /** A closed spool. */
  function SpoolBytes(id: TileId, schema: Schema, points: seq<SpoolPoint>): seq<byte>
    requires FitsWidths(id) && 0 <= schema.coordinateSpace < 256
  {
    HeadBytes(id, schema) + RecordsBytes(points) + FooterBytes(|points|)
  }

  lemma {:induction false} ValuesLength(values: seq<Value>, attributes: seq<Attribute>)
    requires ValuesMatch(values, attributes) && forall v :: v in values ==> |v.bytes| == AttributeSize(v.kind)
    ensures |ValuesBytes(values)| == AttributeSizes(attributes)
  {
    if values != [] {
      ValuesLength(values[1..], attributes[1..]);
    }
  }

  lemma RecordLength(p: SpoolPoint, schema: Schema)
    requires Conforms(p, schema)
    ensures |RecordBytes(p)| == RecordSize(schema)
  {
    ValuesLength(p.attributes, schema.attributes);
  }

  predicate AllConform(points: seq<SpoolPoint>, schema: Schema)
  {
    forall p :: p in points ==> Conforms(p, schema)
  }

  /** The size of a number of records. */
  function Times(count: nat, size: nat): nat { count * size }

  lemma Successor(m: nat, size: nat)
    ensures Times(m + 1, size) == Times(m, size) + size
  {
  }

  lemma {:induction false} RecordsLength(points: seq<SpoolPoint>, schema: Schema)
    requires AllConform(points, schema)
    ensures |RecordsBytes(points)| == Times(|points|, RecordSize(schema))
  {
    if points != [] {
      var m := |points| - 1;
      RecordsLength(points[..m], schema);
      RecordLength(points[m], schema);
      hide Times, RecordSize, RecordBytes, Conforms;
      Successor(m, RecordSize(schema));
    }
  }

  lemma Associate(a: seq<byte>, b: seq<byte>, c: seq<byte>)
    ensures a + (b + c) == a + b + c
  {
  }

  lemma {:induction false} RecordsConcat(a: seq<SpoolPoint>, b: seq<SpoolPoint>)
    ensures RecordsBytes(a + b) == RecordsBytes(a) + RecordsBytes(b)
  {
    if b == [] {
      assert a + b == a;
    } else {
      hide RecordBytes;
      var m := |b| - 1;
      RecordsConcat(a, b[..m]);
      Associate(RecordsBytes(a), RecordsBytes(b[..m]), RecordBytes(b[m]));
      assert (a + b)[..|a + b| - 1] == a + b[..m];
    }
  }

  lemma RecordsNext(points: seq<SpoolPoint>, p: SpoolPoint)
    ensures RecordsBytes(points + [p]) == RecordsBytes(points) + RecordBytes(p)
  {
    assert (points + [p])[..|points|] == points;
  }

  // ----- Parsing the head

  datatype Head = Head(id: TileId, schema: Schema, dataStart: nat)

  /** The attributes that start at `at`, and where they end. */
  function ParseAttributes(file: seq<byte>, at: nat, count: nat): Option<(seq<Attribute>, nat)>
    requires at <= |file|
    decreases count
  {
    if count == 0 then Some(([], at))
    else if at + 4 > |file| then None
    else
      var size := UnsignedAt(file, at, 4);
      if size > MAX_NAME || at + 4 + size + 1 > |file| then None
      else
        var attribute := Attribute(file[at + 4..at + 4 + size], file[at + 4 + size]);
        match ParseAttributes(file, at + 4 + size + 1, count - 1)
        case None => None
        case Some((rest, end)) => Some(([attribute] + rest, end))
  }

  /** What opening a spool reads before the records, when nothing is wrong with it. */
  function ParseHead(file: seq<byte>): Option<Head>
  {
    if |file| < 37 || file[..8] != HEADER then None
    else
      var count := UnsignedAt(file, 33, 4);
      if count > MAX_ATTRIBUTES then None
      else
        match ParseAttributes(file, 37, count)
        case None => None
        case Some((attributes, end)) =>
          var schema := Schema(UnsignedAt(file, 8, 4), file[12], attributes);
          var id := TileId(SignedAt(file, 13, 4), SignedAt(file, 17, 8), SignedAt(file, 25, 8), 0);
          if schema.IsValid() && id.IsValid() then Some(Head(id, schema, end)) else None
  }

  /** The schemas that the reader takes: it limits the number of attributes and the length of a name. */
  predicate WithinLimits(schema: Schema)
  {
    |schema.attributes| <= MAX_ATTRIBUTES && NamesWithinLimits(schema.attributes)
  }

  predicate NamesWithinLimits(attributes: seq<Attribute>)
  {
    forall a :: a in attributes ==> |a.name| <= MAX_NAME
  }

  lemma PowersOf256()
    ensures Pow256(1) == 0x100 && Pow256(4) == 0x1_0000_0000 && Pow256(8) == 0x1_0000_0000_0000_0000
  {
    assert Pow256(2) == 256 * Pow256(1) && Pow256(3) == 256 * Pow256(2) && Pow256(4) == 256 * Pow256(3);
    assert Pow256(5) == 256 * Pow256(4) && Pow256(6) == 256 * Pow256(5) && Pow256(7) == 256 * Pow256(6);
    assert Pow256(8) == 256 * Pow256(7);
  }

  /** A field written in the middle of a file is read back. */
  lemma FieldRoundTrip(before: seq<byte>, n: nat, width: nat, after: seq<byte>)
    requires n < Pow256(width)
    ensures UnsignedAt(before + ToBytes(n, width) + after, |before|, width) == n
  {
    var file := before + ToBytes(n, width) + after;
    assert file[|before|..|before| + width] == ToBytes(n, width);
    BytesRoundTrip(n, width);
  }

  lemma Middle(a: seq<byte>, b: seq<byte>, c: seq<byte>)
    ensures (a + b + c)[|a|..|a| + |b|] == b
  {
  }

  /** One written attribute is read back. */
  lemma AttributeFields(before: seq<byte>, a: Attribute, after: seq<byte>)
    requires |a.name| < Pow256(4)
    ensures var file, at, n := before + AttributeBytes(a) + after, |before|, |a.name|;
      && |AttributeBytes(a)| == n + 5 && UnsignedAt(file, at, 4) == n
      && file[at + 4..at + 4 + n] == a.name && file[at + 4 + n] == a.kind
  {
    hide FromBytes, Pow256, UnsignedAt;
    var file, size := before + AttributeBytes(a) + after, ToBytes(|a.name|, 4);
    hide ToBytes;
    FieldRoundTrip(before, |a.name|, 4, a.name + [a.kind] + after);
    assert file == before + size + (a.name + [a.kind] + after);
    Middle(before + size, a.name, [a.kind] + after);
    assert file == (before + size) + a.name + ([a.kind] + after);
  }

  lemma Regroup(a: seq<byte>, b: seq<byte>, c: seq<byte>, d: seq<byte>)
    ensures a + (b + c) + d == a + b + (c + d) == a + b + c + d
  {
  }

  /** One step of parsing attributes. */
  lemma ParseStep(before: seq<byte>, a: Attribute, after: seq<byte>, count: nat)
    requires |a.name| < Pow256(4)
    ensures var file := before + AttributeBytes(a) + after;
      ParseAttributes(file, |before|, count + 1)
      == if |a.name| > MAX_NAME then None
         else match ParseAttributes(file, |before + AttributeBytes(a)|, count)
              case None => None
              case Some((rest, end)) => Some(([a] + rest, end))
  {
    hide Pow256, UnsignedAt, AttributeBytes;
    AttributeFields(before, a, after);
  }

  /** Attributes written between `before` and `after` are read back, up to the reader's limits. */
  ghost predicate ReadBack(before: seq<byte>, attributes: seq<Attribute>, after: seq<byte>)
  {
    ParseAttributes(before + AttributesBytes(attributes) + after, |before|, |attributes|)
      == if NamesWithinLimits(attributes) then Some((attributes, |before| + |AttributesBytes(attributes)|)) else None
  }

  lemma ReadBackOneMore(before: seq<byte>, a: Attribute, rest: seq<Attribute>, after: seq<byte>)
    requires |a.name| < Pow256(4) && ReadBack(before + AttributeBytes(a), rest, after)
    ensures ReadBack(before, [a] + rest, after)
  {
    hide Pow256, AttributeBytes, AttributesBytes, NamesWithinLimits, ParseAttributes;
    ParseStep(before, a, AttributesBytes(rest) + after, |rest|);
    AttributesConsed(a, rest);
    Regroup(before, AttributeBytes(a), AttributesBytes(rest), after);
  }

  lemma {:induction false} AttributesRoundTrip(before: seq<byte>, attributes: seq<Attribute>, after: seq<byte>)
    requires forall a :: a in attributes ==> |a.name| < Pow256(4)
    ensures ReadBack(before, attributes, after)
    decreases attributes
  {
    if attributes != [] {
      hide Pow256, AttributeBytes, ReadBack;
      AttributesRoundTrip(before + AttributeBytes(attributes[0]), attributes[1..], after);
      ReadBackOneMore(before, attributes[0], attributes[1..], after);
      assert attributes == [attributes[0]] + attributes[1..];
    }
  }

  lemma Joined(h: seq<byte>, v: seq<byte>, c: byte, l: seq<byte>, x: seq<byte>, y: seq<byte>, n: seq<byte>,
               after: seq<byte>)
    requires |h| == 8 && |v| == |l| == |n| == 4 && |x| == |y| == 8
    ensures var f := Join(h, v, c, l, x, y, n) + after;
      && |f| == 37 + |after| && f[..8] == h && f[8..12] == v && f[12] == c && f[13..17] == l && f[17..25] == x
      && f[25..33] == y && f[33..37] == n
  {
    var f := Join(h, v, c, l, x, y, n) + after;
    assert f[..12] == h + v;
    assert f[..17] == h + v + [c] + l;
    assert f[17..] == x + y + n + after;
  }

  /** The fixed fields of a written head are read back. */
  lemma FixedFields(id: TileId, schema: Schema, after: seq<byte>)
    requires FitsWidths(id) && schema.IsValid()
    ensures |FixedHead(id, schema)| == 37
    ensures var file := FixedHead(id, schema) + after;
      && file[..8] == HEADER && UnsignedAt(file, 8, 4) == schema.version && file[12] == schema.coordinateSpace
      && SignedAt(file, 13, 4) == id.level && SignedAt(file, 17, 8) == id.x && SignedAt(file, 25, 8) == id.y
      && UnsignedAt(file, 33, 4) == |schema.attributes|
  {
    PowersOf256();
    SignedRoundTrip(id.level, 4);
    SignedRoundTrip(id.x, 8);
    SignedRoundTrip(id.y, 8);
    hide ToBytes, FromBytes, Pow256, AsUnsignedWord, AsSigned;
    var v, l, x, y, n := ToBytes(schema.version, 4), ToBytes(AsUnsignedWord(id.level, 4), 4),
      ToBytes(AsUnsignedWord(id.x, 8), 8), ToBytes(AsUnsignedWord(id.y, 8), 8), ToBytes(|schema.attributes|, 4);
    Joined(HEADER, v, schema.coordinateSpace, l, x, y, n, after);
    hide Join;
    BytesRoundTrip(schema.version, 4);
    BytesRoundTrip(AsUnsignedWord(id.level, 4), 4);
    BytesRoundTrip(AsUnsignedWord(id.x, 8), 8);
    BytesRoundTrip(AsUnsignedWord(id.y, 8), 8);
    BytesRoundTrip(|schema.attributes|, 4);
  }

  predicate Writable(id: TileId, schema: Schema)
  {
    FitsWidths(id) && id.IsValid() && schema.IsValid() && forall a :: a in schema.attributes ==> |a.name| < Pow256(4)
  }

  /** Whatever follows a written head, it is read back exactly when the schema is within the reader's limits;
      the tile comes back without its z. */
  lemma HeadRoundTrip(id: TileId, schema: Schema, after: seq<byte>)
    requires Writable(id, schema)
    ensures ParseHead(HeadBytes(id, schema) + after)
      == if WithinLimits(schema) then Some(Head(id.(z := 0), schema, |HeadBytes(id, schema)|)) else None
  {
    hide UnsignedAt, SignedAt, FixedHead, ParseAttributes;
    var rest := AttributesBytes(schema.attributes) + after;
    var file := HeadBytes(id, schema) + after;
    assert file == FixedHead(id, schema) + rest;
    FixedFields(id, schema, rest);
    AttributesRoundTrip(FixedHead(id, schema), schema.attributes, after);
    assert file == FixedHead(id, schema) + AttributesBytes(schema.attributes) + after;
  }

  lemma SplitAttribute(file: seq<byte>, at: nat, size: nat)
    requires at + 4 + size + 1 <= |file|
    ensures file[at..at + 4 + size + 1] == file[at..at + 4] + file[at + 4..at + 4 + size] + [file[at + 4 + size]]
  {
  }

  /** The bytes of an attribute that was read. */
  lemma AttributeRead(file: seq<byte>, at: nat)
    requires at + 4 <= |file| && at + 4 + UnsignedAt(file, at, 4) + 1 <= |file|
    ensures var size := UnsignedAt(file, at, 4);
      file[at..at + 4 + size + 1]
      == AttributeBytes(Attribute(file[at + 4..at + 4 + size], file[at + 4 + size]))
  {
    hide ToBytes, UnsignedAt, Pow256;
    UnsignedRead(file, at, 4);
    SplitAttribute(file, at, UnsignedAt(file, at, 4));
  }

  /** Parsed attributes are the ones whose bytes stand there. */
  lemma {:induction false} ParsedAttributesBytes(file: seq<byte>, at: nat, count: nat)
    requires at <= |file| && ParseAttributes(file, at, count).Some?
    ensures var (attributes, end) := ParseAttributes(file, at, count).value;
      && |attributes| == count && at <= end <= |file|
      && file[at..end] == AttributesBytes(attributes) && NamesWithinLimits(attributes)
    decreases count
  {
    hide UnsignedAt, AttributeBytes, AttributesBytes, NamesWithinLimits;
    assert AttributesBytes([]) == [] && NamesWithinLimits([]) by { NoAttributes(); }
    if count > 0 {
      var size := UnsignedAt(file, at, 4);
      var next := at + 4 + size + 1;
      var a := Attribute(file[at + 4..at + 4 + size], file[at + 4 + size]);
      ParsedAttributesBytes(file, next, count - 1);
      var (rest, end) := ParseAttributes(file, next, count - 1).value;
      AttributeRead(file, at);
      AttributesConsed(a, rest);
      assert file[at..end] == file[at..next] + file[next..end];
    }
  }

  lemma NoAttributes()
    ensures AttributesBytes([]) == [] && NamesWithinLimits([])
  {
  }

  lemma AttributesConsed(a: Attribute, rest: seq<Attribute>)
    ensures AttributesBytes([a] + rest) == AttributeBytes(a) + AttributesBytes(rest)
    ensures NamesWithinLimits([a] + rest) <==> |a.name| <= MAX_NAME && NamesWithinLimits(rest)
  {
    assert ([a] + rest)[1..] == rest;
    assert forall b :: b in [a] + rest <==> b == a || b in rest;
  }

  /** A signed field that was read is written back as it stands. */
  lemma SignedRead(file: seq<byte>, at: nat, width: nat)
    requires at + width <= |file| && width > 0
    ensures FitsSigned(SignedAt(file, at, width), width)
    ensures ToBytes(AsUnsignedWord(SignedAt(file, at, width), width), width) == file[at..at + width]
  {
    NumberRoundTrip(file[at..at + width]);
    UnsignedRoundTrip(UnsignedAt(file, at, width), width);
  }

  lemma UnsignedRead(file: seq<byte>, at: nat, width: nat)
    requires at + width <= |file|
    ensures UnsignedAt(file, at, width) < Pow256(width)
    ensures ToBytes(UnsignedAt(file, at, width), width) == file[at..at + width]
  {
    NumberRoundTrip(file[at..at + width]);
  }

  lemma SplitFixed(file: seq<byte>)
    requires |file| >= 37
    ensures file[..37]
      == Join(file[..8], file[8..12], file[12], file[13..17], file[17..25], file[25..33], file[33..37])
  {
    assert file[..17] == file[..8] + file[8..12] + [file[12]] + file[13..17];
    assert file[17..37] == file[17..25] + file[25..33] + file[33..37];
    assert file[..37] == file[..17] + file[17..37];
  }

  /** A head that is read stands in the file as it would be written: the head has one encoding only. */
  lemma ParsedHeadBytes(file: seq<byte>)
    requires ParseHead(file).Some?
    ensures var h := ParseHead(file).value;
      && Writable(h.id, h.schema) && WithinLimits(h.schema)
      && h.dataStart <= |file| && file[..h.dataStart] == HeadBytes(h.id, h.schema)
  {
    hide ToBytes, FromBytes, UnsignedAt, SignedAt, AsUnsignedWord, FitsSigned, Pow256, ParseAttributes, AttributesBytes;
    var h := ParseHead(file).value;
    ParsedAttributesBytes(file, 37, UnsignedAt(file, 33, 4));
    PowersOf256();
    UnsignedRead(file, 8, 4);
    SignedRead(file, 13, 4);
    SignedRead(file, 17, 8);
    SignedRead(file, 25, 8);
    UnsignedRead(file, 33, 4);
    SplitFixed(file);
    assert file[..37] == FixedHead(h.id, h.schema);
    assert file[..h.dataStart] == file[..37] + file[37..h.dataStart];
  }
}
