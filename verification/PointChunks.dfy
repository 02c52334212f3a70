/** The attributes that a chunk made from point data lists, and that all of them can be read from the data. */
module PointChunks {
  import opened Options
  import opened Bytes
  import opened Seqs
  import opened SpoolFormat
  import opened ExtraByteNames
  import opened Columns
  import opened Spool
  import opened TileSpooling
  import opened StreamSpooling
  import opened Authoring

  /** The types that are listed, by the places of their declarations. */
  const INT16: byte := 1
  const UINT8: byte := 2
  const UINT16: byte := 3
  const UINT32: byte := 4
  const UINT64: byte := 5
  const FLOAT32: byte := 6

  /** The built-in columns in the order in which they are listed, and the types they are listed with. */
  const LISTED: seq<(string, byte)> :=
    [("intensity", UINT16), ("returnNumber", UINT8), ("numberOfReturns", UINT8), ("classification", UINT8),
     ("classificationFlags", UINT8), ("scannerChannel", UINT8), ("scanDirectionFlag", UINT8), ("edgeOfFlightLine", UINT8),
     ("userData", UINT8), ("scanAngle", INT16), ("pointSourceId", UINT16), ("red", UINT16), ("green", UINT16),
     ("blue", UINT16), ("nir", UINT16), ("gpsTime", FLOAT64), ("waveformDescriptorIndex", UINT8),
     ("waveformDataOffset", UINT64), ("waveformPacketSize", UINT32), ("returnPointWaveformLocation", FLOAT32),
     ("waveformXt", FLOAT32), ("waveformYt", FLOAT32), ("waveformZt", FLOAT32), ("waveformDataExternal", UINT8)]

  /** The attributes of the first `k` built-in columns that have entries. */
  function KnownAttributes(data: PointData, k: nat): seq<Attribute>
    requires k <= |LISTED|
  {
    if k == 0 then []
    else
      var (name, kind) := LISTED[k - 1];
      KnownAttributes(data, k - 1) + if data.Known(Ascii(name)) != [] then [Attribute(Ascii(name), kind)] else []
  }

  function ComponentCount(data: PointData, e: nat): nat
  {
    if data.extraByteComponentCounts == [] then 1
    else if e < |data.extraByteComponentCounts| then data.extraByteComponentCounts[e] else 0
  }

  /** The attributes of the first `k` columns of extra bytes that have entries, under their normalized names. */
  function ExtraAttributes(data: PointData, names: seq<Name>, k: nat): seq<Attribute>
    requires k <= |data.extraBytes|
  {
    if k == 0 then []
    else
      var e := k - 1;
      var count := ComponentCount(data, e);
      ExtraAttributes(data, names, e) +
      if data.extraBytes[e] != [] && e < |names| && 1 <= count <= 3
      then [Attribute(names[e], if count == 1 then FLOAT64 else if count == 2 then FLOAT64_VEC2 else FLOAT64_VEC3)]
      else []
  }

  ghost function ChunkOf(data: PointData, boundsValid: bool): PointChunk
  {
    PointChunk(|data.positions|, boundsValid,
               KnownAttributes(data, |LISTED|) + ExtraAttributes(data, NormalNames(data.extraByteNames), |data.extraBytes|))
  }

  method MakePointChunk(data: PointData, boundsValid: bool) returns (chunk: PointChunk)
    ensures chunk == ChunkOf(data, boundsValid)
  {
    hide NormalNames, Normalized;
    var attributes := [];
    var k := 0;
    while k < |LISTED|
      invariant 0 <= k <= |LISTED| && attributes == KnownAttributes(data, k)
    {
      if data.Known(Ascii(LISTED[k].0)) != [] {
        attributes := attributes + [Attribute(Ascii(LISTED[k].0), LISTED[k].1)];
      }
      k := k + 1;
    }
    var known := attributes;
    var names := NormalizeExtraByteNames(data.extraByteNames);
    NormalizedOnce(data.extraByteNames, names, NormalNames(data.extraByteNames));
    k := 0;
    while k < |data.extraBytes|
      invariant 0 <= k <= |data.extraBytes| && attributes == known + ExtraAttributes(data, names, k)
    {
      if data.extraBytes[k] != [] && k < |names| {
        var count := ComponentCount(data, k);
        if 1 <= count <= 3 {
          var kind := if count == 1 then FLOAT64 else if count == 2 then FLOAT64_VEC2 else FLOAT64_VEC3;
          attributes := attributes + [Attribute(names[k], kind)];
        }
      }
      k := k + 1;
    }
    chunk := PointChunk(|data.positions|, boundsValid, attributes);
  }

  // ----- The two tables of built-in columns agree

  /** Which of the listed names it is, by its length and a letter. */
  function Tag(name: Name): nat
  {
    var n := |name|;
    if n == 3 then (if name[0] == 'r' as int then 11 else 14)
    else if n == 4 then 13 else if n == 5 then 12 else if n == 7 then 15 else if n == 8 then 8
    else if n == 9 then (if name[0] == 'i' as int then 0 else 9)
    else if n == 10 then (if name[8] == 'X' as int then 20 else if name[8] == 'Y' as int then 21 else 22)
    else if n == 12 then 1 else if n == 13 then 10
    else if n == 14 then (if name[0] == 'c' as int then 3 else 5)
    else if n == 15 then 2 else if n == 16 then 7 else if n == 17 then 6
    else if n == 18 then (if name[8] == 'D' as int then 17 else 18)
    else if n == 19 then 4 else if n == 20 then 23 else if n == 23 then 16 else 19
  }

  lemma TagsOfNames()
    ensures Tag(Ascii("intensity")) == 0 && Tag(Ascii("returnNumber")) == 1 && Tag(Ascii("numberOfReturns")) == 2
    ensures Tag(Ascii("classification")) == 3 && Tag(Ascii("classificationFlags")) == 4 && Tag(Ascii("scannerChannel")) == 5
    ensures Tag(Ascii("scanDirectionFlag")) == 6 && Tag(Ascii("edgeOfFlightLine")) == 7 && Tag(Ascii("userData")) == 8
    ensures Tag(Ascii("scanAngle")) == 9 && Tag(Ascii("pointSourceId")) == 10 && Tag(Ascii("red")) == 11
    ensures Tag(Ascii("green")) == 12 && Tag(Ascii("blue")) == 13 && Tag(Ascii("nir")) == 14
    ensures Tag(Ascii("gpsTime")) == 15 && Tag(Ascii("waveformDescriptorIndex")) == 16 && Tag(Ascii("waveformDataOffset")) == 17
    ensures Tag(Ascii("waveformPacketSize")) == 18 && Tag(Ascii("returnPointWaveformLocation")) == 19 && Tag(Ascii("waveformXt")) == 20
    ensures Tag(Ascii("waveformYt")) == 21 && Tag(Ascii("waveformZt")) == 22 && Tag(Ascii("waveformDataExternal")) == 23
  {
    assert forall text: string, i: nat :: i < |text| ==> Ascii(text)[i] == (text[i] as int) % 256;
    assert Ascii("waveformXt")[8] == 'X' as int && Ascii("waveformYt")[8] == 'Y' as int;
    assert Ascii("waveformZt")[8] == 'Z' as int && Ascii("waveformDataOffset")[8] == 'D' as int;
  }

  lemma KindsOfFirstNames()
    ensures KnownKind(Ascii("intensity")) == Some(UINT16) && KnownKind(Ascii("returnNumber")) == Some(UINT8)
    ensures KnownKind(Ascii("numberOfReturns")) == Some(UINT8) && KnownKind(Ascii("classification")) == Some(UINT8)
    ensures KnownKind(Ascii("classificationFlags")) == Some(UINT8) && KnownKind(Ascii("scannerChannel")) == Some(UINT8)
    ensures KnownKind(Ascii("scanDirectionFlag")) == Some(UINT8) && KnownKind(Ascii("edgeOfFlightLine")) == Some(UINT8)
    ensures KnownKind(Ascii("userData")) == Some(UINT8)
  {
    TagsOfNames();
    hide Ascii, Tag;
  }

  lemma KindsOfSecondNames()
    ensures KnownKind(Ascii("scanAngle")) == Some(INT16) && KnownKind(Ascii("pointSourceId")) == Some(UINT16)
    ensures KnownKind(Ascii("red")) == Some(UINT16) && KnownKind(Ascii("green")) == Some(UINT16)
    ensures KnownKind(Ascii("blue")) == Some(UINT16) && KnownKind(Ascii("nir")) == Some(UINT16)
  {
    TagsOfNames();
    hide Ascii, Tag;
  }

  lemma KindsOfThirdNames()
    ensures KnownKind(Ascii("gpsTime")) == Some(FLOAT64) && KnownKind(Ascii("waveformDescriptorIndex")) == Some(UINT8)
    ensures KnownKind(Ascii("waveformDataOffset")) == Some(UINT64)
  {
    TagsOfNames();
    hide Ascii, Tag;
  }

  lemma KindsOfFourthNames()
    ensures KnownKind(Ascii("waveformPacketSize")) == Some(UINT32) && KnownKind(Ascii("returnPointWaveformLocation")) == Some(FLOAT32)
    ensures KnownKind(Ascii("waveformXt")) == Some(FLOAT32)
  {
    TagsOfNames();
    hide Ascii, Tag;
  }

  lemma KindsOfFifthNames()
    ensures KnownKind(Ascii("waveformYt")) == Some(FLOAT32) && KnownKind(Ascii("waveformZt")) == Some(FLOAT32)
    ensures KnownKind(Ascii("waveformDataExternal")) == Some(UINT8)
  {
    TagsOfNames();
    hide Ascii, Tag;
  }

  lemma FirstListedNames()
    ensures LISTED[0].0 == "intensity" && LISTED[1].0 == "returnNumber" && LISTED[2].0 == "numberOfReturns"
    ensures LISTED[3].0 == "classification" && LISTED[4].0 == "classificationFlags" && LISTED[5].0 == "scannerChannel"
    ensures LISTED[6].0 == "scanDirectionFlag" && LISTED[7].0 == "edgeOfFlightLine" && LISTED[8].0 == "userData"
    ensures LISTED[9].0 == "scanAngle" && LISTED[10].0 == "pointSourceId" && LISTED[11].0 == "red"
  {
  }

  lemma LastListedNames()
    ensures LISTED[12].0 == "green" && LISTED[13].0 == "blue" && LISTED[14].0 == "nir"
    ensures LISTED[15].0 == "gpsTime" && LISTED[16].0 == "waveformDescriptorIndex" && LISTED[17].0 == "waveformDataOffset"
    ensures LISTED[18].0 == "waveformPacketSize" && LISTED[19].0 == "returnPointWaveformLocation" && LISTED[20].0 == "waveformXt"
    ensures LISTED[21].0 == "waveformYt" && LISTED[22].0 == "waveformZt" && LISTED[23].0 == "waveformDataExternal"
  {
  }

  lemma ReservedNames()
    ensures Ascii("intensity") in RESERVED && Ascii("returnNumber") in RESERVED && Ascii("numberOfReturns") in RESERVED
    ensures Ascii("classification") in RESERVED && Ascii("classificationFlags") in RESERVED && Ascii("scannerChannel") in RESERVED
    ensures Ascii("scanDirectionFlag") in RESERVED && Ascii("edgeOfFlightLine") in RESERVED && Ascii("userData") in RESERVED
    ensures Ascii("scanAngle") in RESERVED && Ascii("pointSourceId") in RESERVED && Ascii("red") in RESERVED
    ensures Ascii("green") in RESERVED && Ascii("blue") in RESERVED && Ascii("nir") in RESERVED
    ensures Ascii("gpsTime") in RESERVED && Ascii("waveformDescriptorIndex") in RESERVED && Ascii("waveformDataOffset") in RESERVED
    ensures Ascii("waveformPacketSize") in RESERVED && Ascii("returnPointWaveformLocation") in RESERVED && Ascii("waveformXt") in RESERVED
    ensures Ascii("waveformYt") in RESERVED && Ascii("waveformZt") in RESERVED && Ascii("waveformDataExternal") in RESERVED
  {
    hide Ascii;
  }

  /** Columns are read and written with the types that they are listed with, and no extra bytes take their names. */
  lemma ListedKind(j: nat)
    requires j < |LISTED|
    ensures KnownKind(Ascii(LISTED[j].0)) == Some(LISTED[j].1) && Ascii(LISTED[j].0) in RESERVED && Tag(Ascii(LISTED[j].0)) == j
  {
    TagsOfNames();
    KindsOfFirstNames();
    KindsOfSecondNames();
    KindsOfThirdNames();
    KindsOfFourthNames();
    KindsOfFifthNames();
    ReservedNames();
    hide Ascii, Tag, KnownKind;
  }

  /** No other names are built in. */
  lemma KnownIsListed(name: Name) returns (j: nat)
    requires KnownKind(name).Some?
    ensures j < |LISTED| && name == Ascii(LISTED[j].0)
  {
    hide Ascii;
    FirstListedNames();
    LastListedNames();
    j :| 0 <= j < |LISTED| && name == Ascii(LISTED[j].0);
  }

  // ----- What is listed

  lemma {:induction false} KnownListed(data: PointData, k: nat, a: Attribute)
    requires k <= |LISTED|
    ensures a in KnownAttributes(data, k) <==> exists j :: 0 <= j < k && IsKnownAt(data, j, a)
  {
    if k > 0 {
      KnownNext(data, k);
      hide KnownAttributes, LISTED, Ascii, PointData.Known;
      KnownListed(data, k - 1, a);
      var (name, kind) := LISTED[k - 1];
      assert IsKnownAt(data, k - 1, a) <==> a == Attribute(Ascii(name), kind) && data.Known(Ascii(name)) != [];
    }
  }

  lemma KnownNext(data: PointData, k: nat)
    requires 0 < k <= |LISTED|
    ensures var (name, kind) := LISTED[k - 1];
      KnownAttributes(data, k)
      == KnownAttributes(data, k - 1) + if data.Known(Ascii(name)) != [] then [Attribute(Ascii(name), kind)] else []
  {
    hide Ascii;
  }

  predicate IsKnownAt(data: PointData, j: int, a: Attribute)
  {
    0 <= j < |LISTED| && a == Attribute(Ascii(LISTED[j].0), LISTED[j].1) && data.Known(Ascii(LISTED[j].0)) != []
  }

  lemma {:induction false} ExtraListed(data: PointData, names: seq<Name>, k: nat, a: Attribute)
    requires k <= |data.extraBytes|
    ensures a in ExtraAttributes(data, names, k) <==> exists e :: 0 <= e < k && IsExtraAt(data, names, e, a)
  {
    if k > 0 {
      ExtraListed(data, names, k - 1, a);
      hide ExtraAttributes;
      ExtraNext(data, names, k, a);
    }
  }

  lemma ExtraNext(data: PointData, names: seq<Name>, k: nat, a: Attribute)
    requires 0 < k <= |data.extraBytes|
    ensures a in ExtraAttributes(data, names, k) <==> a in ExtraAttributes(data, names, k - 1) || IsExtraAt(data, names, k - 1, a)
  {
  }

  predicate IsExtraAt(data: PointData, names: seq<Name>, e: int, a: Attribute)
  {
    && 0 <= e < |data.extraBytes| && e < |names| && data.extraBytes[e] != [] && a.name == names[e]
    && 1 <= ComponentCount(data, e) <= 3
    && a.kind == if ComponentCount(data, e) == 1 then FLOAT64
                 else if ComponentCount(data, e) == 2 then FLOAT64_VEC2 else FLOAT64_VEC3
  }

  lemma {:induction false} KnownUnique(data: PointData, k: nat)
    requires k <= |LISTED|
    ensures UniqueNames(KnownAttributes(data, k))
  {
    if k > 0 {
      KnownUnique(data, k - 1);
      ListedKind(k - 1);
      var before := KnownAttributes(data, k - 1);
      hide LISTED, Ascii, Tag, KnownKind;
      forall i | 0 <= i < |before| ensures before[i].name != Ascii(LISTED[k - 1].0) {
        assert before[i] in before;
        KnownListed(data, k - 1, before[i]);
        var j :| 0 <= j < k - 1 && IsKnownAt(data, j, before[i]);
        ListedKind(j);
      }
    }
  }

  lemma {:induction false} ExtraUnique(data: PointData, names: seq<Name>, k: nat)
    requires k <= |data.extraBytes| && Distinct(names)
    ensures UniqueNames(ExtraAttributes(data, names, k))
  {
    if k > 0 {
      ExtraUnique(data, names, k - 1);
      var before := ExtraAttributes(data, names, k - 1);
      forall i | 0 <= i < |before| && k - 1 < |names| ensures before[i].name != names[k - 1] {
        assert before[i] in before;
        ExtraListed(data, names, k - 1, before[i]);
      }
    }
  }

  lemma UniqueTogether(a: seq<Attribute>, b: seq<Attribute>)
    requires UniqueNames(a) && UniqueNames(b)
    requires forall x :: x in a ==> x.name in RESERVED
    requires forall x :: x in b ==> x.name !in RESERVED
    ensures UniqueNames(a + b)
  {
    hide RESERVED;
    forall i, j | 0 <= i < j < |a + b| ensures (a + b)[i].name != (a + b)[j].name {
      if i < |a| <= j {
        assert a[i] in a && b[j - |a|] in b;
      }
    }
  }

  /** The listed names are all different, and none is empty. */
  lemma ListedNamesDiffer(data: PointData)
    ensures UniqueNames(ChunkOf(data, true).attributes)
    ensures forall a :: a in ChunkOf(data, true).attributes ==> a.name != []
  {
    hide RESERVED, Ascii, KnownKind, IsIdentifier, Tag, LISTED, NormalNames, Normalized;
    var names := NormalNames(data.extraByteNames);
    var known, extra := KnownAttributes(data, |LISTED|), ExtraAttributes(data, names, |data.extraBytes|);
    NormalizedUsable(data.extraByteNames, names);
    KnownUnique(data, |LISTED|);
    ExtraUnique(data, names, |data.extraBytes|);
    forall a | a in known ensures a.name in RESERVED && a.name != [] {
      KnownListed(data, |LISTED|, a);
      var j :| 0 <= j < |LISTED| && IsKnownAt(data, j, a);
      ListedKind(j);
      NamesNotEmpty(j);
    }
    forall a | a in extra ensures a.name !in RESERVED && a.name != [] {
      ExtraListed(data, names, |data.extraBytes|, a);
      var e :| 0 <= e < |data.extraBytes| && IsExtraAt(data, names, e, a);
      assert names[e] in names;
      IdentifierNotEmpty(names[e]);
    }
    UniqueTogether(known, extra);
  }

  lemma NamesNotEmpty(j: nat)
    requires j < |LISTED|
    ensures Ascii(LISTED[j].0) != []
  {
    assert |Ascii(LISTED[j].0)| == |LISTED[j].0|;
  }

  lemma IdentifierNotEmpty(name: Name)
    requires IsIdentifier(name)
    ensures name != []
  {
  }

  // ----- What is listed can be read

  lemma TimesBelow(index: nat, count: nat, n: nat)
    requires index < n
    ensures Times(index, count) + count <= Times(n, count)
  {
    assert (index + 1) * count <= n * count;
  }

  lemma KnownReadable(data: PointData, j: nat, a: Attribute, index: nat)
    requires data.IsValid() && IsKnownAt(data, j, a) && index < |data.positions|
    ensures GoodValue(data, a, index)
  {
    ListedKind(j);
    hide LISTED, Ascii, KnownKind, RESERVED, PointData.Together;
  }

  lemma ExtraReadable(data: PointData, e: nat, a: Attribute, index: nat)
    requires data.IsValid() && IsExtraAt(data, NormalNames(data.extraByteNames), e, a) && index < |data.positions|
    ensures GoodValue(data, a, index)
  {
    hide LISTED, Ascii, KnownKind, RESERVED, PointData.Together, NormalNames, Normalized, Times, IsIdentifier;
    var names := NormalNames(data.extraByteNames);
    NormalizedUsable(data.extraByteNames, names);
    assert names[e] in names;
    if KnownKind(a.name).Some? {
      var j := KnownIsListed(a.name);
      ListedKind(j);
      assert false;
    }
    assert data.ExtraFits(e);
    TimesBelow(index, ComponentCount(data, e), |data.positions|);
  }

  /** Every listed attribute has, for every point, a value of the type that it is listed with. */
  lemma ListedReadable(data: PointData, boundsValid: bool, a: Attribute, index: nat)
    requires data.IsValid() && a in ChunkOf(data, boundsValid).attributes && index < |data.positions|
    ensures GoodValue(data, a, index)
  {
    hide LISTED, Ascii, KnownAttributes, ExtraAttributes, NormalNames, PointData.IsValid, GoodValue;
    var names := NormalNames(data.extraByteNames);
    KnownListed(data, |LISTED|, a);
    ExtraListed(data, names, |data.extraBytes|, a);
    if j :| 0 <= j < |LISTED| && IsKnownAt(data, j, a) {
      KnownReadable(data, j, a, index);
    } else {
      var e :| 0 <= e < |data.extraBytes| && IsExtraAt(data, names, e, a);
      ExtraReadable(data, e, a, index);
    }
  }

  /** Data without points lists nothing. */
  lemma NothingListed(data: PointData, a: Attribute)
    requires data.IsValid() && data.positions == []
    ensures a !in ChunkOf(data, false).attributes
  {
    hide LISTED, Ascii, NormalNames, Normalized, PointData.Together, KnownAttributes, ExtraAttributes;
    var names := NormalNames(data.extraByteNames);
    KnownListed(data, |LISTED|, a);
    ExtraListed(data, names, |data.extraBytes|, a);
    forall e | 0 <= e < |data.extraBytes| ensures !IsExtraAt(data, names, e, a) {
      assert data.ExtraFits(e);
    }
  }

  /** A chunk made from valid data is valid, and lists exactly the built-in columns that have entries. */
  lemma MadeChunkValid(data: PointData)
    requires data.IsValid()
    ensures DeliveredWell(ChunkOf(data, data.positions != []), data)
    ensures ListsColumns(ChunkOf(data, data.positions != []).attributes, data)
  {
    hide LISTED, Ascii, NormalNames, KnownAttributes, ExtraAttributes, PointData.IsValid, ChunkOf, UniqueNames, ListsColumns;
    MadeShape(data);
    ListedNamesDiffer(data);
    MadeLists(data, data.positions != []);
    if data.positions == [] {
      var attributes := ChunkOf(data, false).attributes;
      if attributes != [] {
        NothingListed(data, attributes[0]);
        assert false;
      }
    }
  }

  lemma MadeShape(data: PointData)
    ensures forall boundsValid :: ChunkOf(data, boundsValid).attributes == ChunkOf(data, true).attributes
    ensures forall boundsValid :: ChunkOf(data, boundsValid).pointCount == |data.positions|
    ensures forall boundsValid :: ChunkOf(data, boundsValid).boundsValid == boundsValid
  {
    hide NormalNames, KnownAttributes, ExtraAttributes;
  }

  lemma MadeLists(data: PointData, boundsValid: bool)
    ensures ListsColumns(ChunkOf(data, boundsValid).attributes, data)
  {
    hide LISTED, Ascii, NormalNames, Normalized, KnownAttributes, ExtraAttributes, KnownKind, RESERVED, IsIdentifier, PointData.Known,
         Tag;
    var names := NormalNames(data.extraByteNames);
    NormalizedUsable(data.extraByteNames, names);
    var attributes := ChunkOf(data, boundsValid).attributes;
    forall name | KnownKind(name).Some? ensures Listed(attributes, name) <==> data.Known(name) != [] {
      var j := KnownIsListed(name);
      ListedKind(j);
      var own := Attribute(Ascii(LISTED[j].0), LISTED[j].1);
      KnownListed(data, |LISTED|, own);
      if data.Known(name) != [] {
        assert IsKnownAt(data, j, own);
      }
      if a :| a in attributes && a.name == name {
        KnownListed(data, |LISTED|, a);
        ExtraListed(data, names, |data.extraBytes|, a);
        NotExtra(data, names, a);
      }
    }
  }

  lemma NotExtra(data: PointData, names: seq<Name>, a: Attribute)
    requires a.name in RESERVED && forall n :: n in names ==> n !in RESERVED
    ensures forall e :: 0 <= e < |data.extraBytes| ==> !IsExtraAt(data, names, e, a)
  {
    hide RESERVED;
    forall e | 0 <= e < |data.extraBytes| ensures !IsExtraAt(data, names, e, a) {
      assert e < |names| ==> names[e] in names;
    }
  }

  // ----- Streams of such chunks

  /** The chunk was made from its data, which is valid, and its positions have tiles and stage coordinates. */
  ghost predicate WellMade(route: Router, reference: Reference, c: Pulled)
  {
    && c.Pulled? && c.data.IsValid() && c.chunk == ChunkOf(c.data, c.data.positions != [])
    && forall v :: v in c.data.positions ==> route(v).IsValid() && reference(v).Some?
  }

  lemma WellMadeGood(route: Router, reference: Reference, c: Pulled)
    requires WellMade(route, reference, c)
    ensures GoodChunk(route, reference, c, c.chunk.attributes)
  {
    hide PointData.Together, PointData.ExtraFits, ChunkOf, GoodValue, ListsColumns;
    MadeChunkValid(c.data);
    forall k: nat | k < |c.data.positions| ensures GoodPoint(route, reference, c.data, c.chunk.attributes, k) {
      assert c.data.positions[k] in c.data.positions;
      forall i | 0 <= i < |c.chunk.attributes| ensures GoodValue(c.data, c.chunk.attributes[i], k) {
        ListedReadable(c.data, c.data.positions != [], c.chunk.attributes[i], k);
      }
    }
  }

  lemma ListedSized(data: PointData, boundsValid: bool, a: Attribute)
    requires a in ChunkOf(data, boundsValid).attributes
    ensures AttributeSize(a.kind) != 0
  {
    hide LISTED, Ascii, KnownAttributes, ExtraAttributes, NormalNames;
    KnownListed(data, |LISTED|, a);
    ExtraListed(data, NormalNames(data.extraByteNames), |data.extraBytes|, a);
    if j :| 0 <= j < |LISTED| && IsKnownAt(data, j, a) {
      KindSized(j);
    }
  }

  lemma KindSized(j: nat)
    requires j < |LISTED|
    ensures 1 <= LISTED[j].1 <= 7
  {
  }

  /** A stream of such chunks with the same attributes is good, and names together what belongs together: so it is authored,
      unless the system fails. */
  lemma MadeStreamGood(route: Router, reference: Reference, stream: seq<Pulled>)
    requires HasPoints(stream) && forall c :: c in stream ==> WellMade(route, reference, c)
    requires var attributes := AttributesOf(stream);
      && |attributes| < Pow256(4) && NamesFit(attributes)
      && forall c :: c in stream && c.Pulled? ==> c.chunk.attributes == attributes
    ensures GoodStream(route, reference, stream, AttributesOf(stream)) && NamedTogether(AttributesOf(stream))
  {
    hide GoodChunk, PointData.IsValid, ChunkOf, NamedTogether, ListsColumns, AttributeSize;
    var attributes := AttributesOf(stream);
    forall c | c in stream ensures GoodChunk(route, reference, c, attributes) {
      assert WellMade(route, reference, c);
      WellMadeGood(route, reference, c);
    }
    var c :| c in stream && c.Pulled? && c.data.positions != [];
    assert WellMade(route, reference, c);
    MadeChunkValid(c.data);
    ListedTogether(attributes, c.data);
    ListedNamesDiffer(c.data);
    MadeShape(c.data);
    forall a | a in attributes ensures a.IsValid() {
      ListedSized(c.data, c.data.positions != [], a);
    }
  }

  // ----- Which data and which chunks are taken

  const RETURNS: seq<string> := ["returnNumber", "numberOfReturns"]
  const COLOURS: seq<string> := ["red", "green", "blue"]
  const WAVEFORM: seq<string> :=
    ["waveformDescriptorIndex", "waveformDataOffset", "waveformPacketSize", "returnPointWaveformLocation",
     "waveformXt", "waveformYt", "waveformZt", "waveformDataExternal"]

  /** Some columns are all absent or all there. */
  ghost predicate AllOrNone(absent: Name -> bool, names: seq<string>)
  {
    (forall k :: 0 <= k < |names| ==> absent(Ascii(names[k]))) || (forall k :: 0 <= k < |names| ==> !absent(Ascii(names[k])))
  }

  lemma LikeTheFirst(absent: Name -> bool, names: seq<string>)
    requires names != []
    ensures AllOrNone(absent, names) <==>
      forall k :: 0 < k < |names| ==> (absent(Ascii(names[0])) <==> absent(Ascii(names[k])))
  {
    hide Ascii;
  }

  lemma ReturnsAndColours(absent: Name -> bool)
    ensures AllOrNone(absent, RETURNS) <==> (absent(Ascii("returnNumber")) <==> absent(Ascii("numberOfReturns")))
    ensures AllOrNone(absent, COLOURS) <==>
      && (absent(Ascii("red")) <==> absent(Ascii("green"))) && (absent(Ascii("red")) <==> absent(Ascii("blue")))
  {
    LikeTheFirst(absent, RETURNS);
    LikeTheFirst(absent, COLOURS);
    assert RETURNS[1] == "numberOfReturns" && COLOURS[1] == "green" && COLOURS[2] == "blue";
    hide Ascii, AllOrNone;
  }

  lemma WaveformTogether(absent: Name -> bool)
    ensures AllOrNone(absent, WAVEFORM)
       <==> forall k :: 3 <= k < 10 ==> (absent(Ascii(TOGETHER[k].0)) <==> absent(Ascii(TOGETHER[k].1)))
  {
    LikeTheFirst(absent, WAVEFORM);
    hide Ascii, AllOrNone;
    assert forall k :: 3 <= k < 10 ==> TOGETHER[k] == (WAVEFORM[0], WAVEFORM[k - 2]);
    assert forall k :: 0 < k < 8 ==> TOGETHER[k + 2] == (WAVEFORM[0], WAVEFORM[k]);
  }

  /** The pairs of columns that belong together make three groups of such columns. */
  lemma PairsMakeGroups(absent: Name -> bool)
    ensures (forall k :: 0 <= k < |TOGETHER| ==> (absent(Ascii(TOGETHER[k].0)) <==> absent(Ascii(TOGETHER[k].1))))
       <==> AllOrNone(absent, RETURNS) && AllOrNone(absent, COLOURS) && AllOrNone(absent, WAVEFORM)
  {
    ReturnsAndColours(absent);
    WaveformTogether(absent);
    assert TOGETHER[0] == ("returnNumber", "numberOfReturns") && TOGETHER[1] == ("red", "green");
    assert TOGETHER[2] == ("red", "blue") && |TOGETHER| == 10;
    hide Ascii, AllOrNone, TOGETHER;
  }

  predicate ExtraColumnOk(positions: nat, components: nat, entries: nat)
  {
    (components == 1 || components == 2 || components == 3) && (entries == 0 || entries == positions * components)
  }

  /** Data is valid exactly when every column has an entry for each position or none at all, every column of extra bytes
      one for each of its one to three components, and return numbers, colours and waveform are each complete or absent. */
  lemma DataExactly(data: PointData)
    ensures data.IsValid() <==>
      && (forall n :: n in data.columns ==> |data.columns[n]| == 0 || |data.columns[n]| == |data.positions|)
      && |data.extraByteNames| == |data.extraBytes|
      && (|data.extraByteComponentCounts| == 0 || |data.extraByteComponentCounts| == |data.extraBytes|)
      && (forall e :: 0 <= e < |data.extraBytes| ==>
            ExtraColumnOk(|data.positions|, if |data.extraByteComponentCounts| == 0 then 1 else data.extraByteComponentCounts[e],
                          |data.extraBytes[e]|))
      && AllOrNone(n => data.Known(n) == [], RETURNS) && AllOrNone(n => data.Known(n) == [], COLOURS)
      && AllOrNone(n => data.Known(n) == [], WAVEFORM)
  {
    PairsMakeGroups(n => data.Known(n) == []);
    hide Ascii, TOGETHER, RETURNS, COLOURS, WAVEFORM, AllOrNone;
    assert forall e :: 0 <= e < |data.extraBytes| && data.Counted() ==>
      (data.ExtraFits(e) <==>
       ExtraColumnOk(|data.positions|, if |data.extraByteComponentCounts| == 0 then 1 else data.extraByteComponentCounts[e],
                     |data.extraBytes[e]|));
  }

  /** Attributes name columns that belong together only together exactly when they name all or none of each group. */
  lemma NamedExactly(attributes: seq<Attribute>)
    ensures NamedTogether(attributes) <==>
      && AllOrNone(n => !Listed(attributes, n), RETURNS) && AllOrNone(n => !Listed(attributes, n), COLOURS)
      && AllOrNone(n => !Listed(attributes, n), WAVEFORM)
  {
    PairsMakeGroups(n => !Listed(attributes, n));
    hide Ascii, TOGETHER, RETURNS, COLOURS, WAVEFORM, AllOrNone, Listed;
  }

  /** A chunk is taken exactly when its data is valid and of its size, and it is empty, without bounds and attributes, or has
      bounds and attributes with different names. */
  lemma DeliveredExactly(chunk: PointChunk, data: PointData)
    ensures DeliveredWell(chunk, data) <==>
      && data.IsValid() && chunk.pointCount == |data.positions|
      && (chunk.boundsValid <==> data.positions != []) && (data.positions == [] ==> chunk.attributes == [])
      && (forall a :: a in chunk.attributes ==> |a.name| > 0)
      && forall i, j :: 0 <= i < j < |chunk.attributes| ==> chunk.attributes[i].name != chunk.attributes[j].name
  {
    hide PointData.IsValid;
  }
}
