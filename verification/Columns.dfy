/** Point attributes as columns: reading one value, and building columns up again value by value. */
module Columns {
  import opened Options
  import opened Bytes
  import opened Seqs
  import opened SpoolFormat
  import opened ExtraByteNames

  const FLOAT64: byte := 7
  const FLOAT64_VEC2: byte := 8
  const FLOAT64_VEC3: byte := 9

  /** The type of a built-in attribute's values. */
  function KnownKind(name: Name): Option<byte>
  {
    if name == Ascii("intensity") then Some(3)
    else if name == Ascii("returnNumber") then Some(2)
    else if name == Ascii("numberOfReturns") then Some(2)
    else if name == Ascii("classification") then Some(2)
    else if name == Ascii("classificationFlags") then Some(2)
    else if name == Ascii("scannerChannel") then Some(2)
    else if name == Ascii("scanDirectionFlag") then Some(2)
    else if name == Ascii("edgeOfFlightLine") then Some(2)
    else if name == Ascii("userData") then Some(2)
    else if name == Ascii("scanAngle") then Some(1)
    else if name == Ascii("pointSourceId") then Some(3)
    else if name == Ascii("red") then Some(3)
    else if name == Ascii("green") then Some(3)
    else if name == Ascii("blue") then Some(3)
    else if name == Ascii("nir") then Some(3)
    else if name == Ascii("gpsTime") then Some(FLOAT64)
    else if name == Ascii("waveformDescriptorIndex") then Some(2)
    else if name == Ascii("waveformDataOffset") then Some(5)
    else if name == Ascii("waveformPacketSize") then Some(4)
    else if name == Ascii("returnPointWaveformLocation") then Some(6)
    else if name == Ascii("waveformXt") then Some(6)
    else if name == Ascii("waveformYt") then Some(6)
    else if name == Ascii("waveformZt") then Some(6)
    else if name == Ascii("waveformDataExternal") then Some(2)
    else None
  }

  /** Built-in columns that come together or not at all, by pairs. */
  const TOGETHER: seq<(string, string)> :=
    [("returnNumber", "numberOfReturns"), ("red", "green"), ("red", "blue"),
     ("waveformDescriptorIndex", "waveformDataOffset"), ("waveformDescriptorIndex", "waveformPacketSize"),
     ("waveformDescriptorIndex", "returnPointWaveformLocation"), ("waveformDescriptorIndex", "waveformXt"),
     ("waveformDescriptorIndex", "waveformYt"), ("waveformDescriptorIndex", "waveformZt"),
     ("waveformDescriptorIndex", "waveformDataExternal")]

  lemma TogetherKnown(k: nat)
    requires k < |TOGETHER|
    ensures KnownKind(Ascii(TOGETHER[k].0)).Some? && KnownKind(Ascii(TOGETHER[k].1)).Some?
  {
    hide Ascii;
  }

  predicate Listed(attributes: seq<Attribute>, name: Name)
  {
    exists a :: a in attributes && a.name == name
  }

  /** The attributes name columns that belong together only together. */
  predicate NamedTogether(attributes: seq<Attribute>)
  {
    forall k :: 0 <= k < |TOGETHER| ==>
      (Listed(attributes, Ascii(TOGETHER[k].0)) <==> Listed(attributes, Ascii(TOGETHER[k].1)))
  }

  /** A column: the bytes of its entries. */
  type Column = seq<seq<byte>>

  /** The built-in columns by name, absent ones being empty; the extra bytes as columns of doubles. */
  datatype PointData = PointData(
    positions: Column,
    columns: map<Name, Column>,
    extraByteNames: seq<Name>,
    extraByteComponentCounts: seq<nat>,
    extraBytes: seq<Column>)
  {
    function Known(name: Name): Column
    {
      if name in columns then columns[name] else []
    }

    /** The parts of the source's validity check that reading values relies on. */
    predicate Counted()
    {
      extraByteComponentCounts == [] || |extraByteComponentCounts| == |extraBytes|
    }

    /** Every column is absent or as long as the positions, and columns that belong together come together. */
    predicate IsValid()
    {
      && (forall n :: n in columns ==> columns[n] == [] || |columns[n]| == |positions|)
      && |extraByteNames| == |extraBytes| && Counted()
      && (forall e :: 0 <= e < |extraBytes| ==> ExtraFits(e))
      && (forall k :: 0 <= k < |TOGETHER| ==> Together(TOGETHER[k].0, TOGETHER[k].1))
    }

    predicate ExtraFits(e: nat)
      requires e < |extraBytes| && Counted()
    {
      var count := if extraByteComponentCounts == [] then 1 else extraByteComponentCounts[e];
      1 <= count <= 3 && (extraBytes[e] == [] || |extraBytes[e]| == Times(|positions|, count))
    }

    predicate Together(a: string, b: string)
    {
      Known(Ascii(a)) == [] <==> Known(Ascii(b)) == []
    }

    /** Entries have the sizes that their types give them. */
    ghost predicate Typed()
    {
      && (forall p :: p in positions ==> |p| == POSITION_SIZE)
      && (forall n, k :: KnownKind(n).Some? && 0 <= k < |Known(n)| ==> |Known(n)[k]| == AttributeSize(KnownKind(n).value))
      && (forall e, k :: 0 <= e < |extraBytes| && 0 <= k < |extraBytes[e]| ==> |extraBytes[e][k]| == 8)
    }
  }

  const NO_DATA := PointData([], map[], [], [], [])

  /** The place of the first occurrence. */
  function IndexOf(names: seq<Name>, name: Name): (r: Option<nat>)
    ensures r.Some? ==> r.value < |names| && names[r.value] == name && name !in names[..r.value]
    ensures r.None? ==> name !in names
  {
    if names == [] then None
    else
      assert names == names[..|names| - 1] + [names[|names| - 1]];
      match IndexOf(names[..|names| - 1], name)
      case Some(k) => assert names[..|names| - 1][..k] == names[..k]; Some(k)
      case None => if names[|names| - 1] == name then Some(|names| - 1) else None
  }

  /** `count` components of a column from `at` on, as one value. */
  function Components(values: Column, at: nat, count: nat): Option<Value>
  {
    if count == 1 && at < |values| then Some(Value(FLOAT64, values[at]))
    else if count == 2 && at + 1 < |values| then Some(Value(FLOAT64_VEC2, values[at] + values[at + 1]))
    else if count == 3 && at + 2 < |values| then
      Some(Value(FLOAT64_VEC3, values[at] + values[at + 1] + values[at + 2]))
    else None
  }

  /** The value of an attribute for one point, if the data has it. */
  ghost function AttributeValue(data: PointData, name: Name, index: nat): Option<Value>
    requires data.Counted()
  {
    if KnownKind(name).Some? then
      if index < |data.Known(name)| then Some(Value(KnownKind(name).value, data.Known(name)[index])) else None
    else ExtraValue(data, IndexOf(NormalNames(data.extraByteNames), name), index)
  }

  /** The value in a column of extra bytes. */
  function ExtraValue(data: PointData, extra: Option<nat>, index: nat): Option<Value>
    requires data.Counted()
  {
    if extra.None? || extra.value >= |data.extraBytes| then None
    else
      var count := if data.extraByteComponentCounts == [] then 1 else data.extraByteComponentCounts[extra.value];
      Components(data.extraBytes[extra.value], Times(index, count), count)
  }

  method ReadAttributeValue(data: PointData, name: Name, index: nat) returns (value: Option<Value>)
    requires data.Counted()
    ensures value == AttributeValue(data, name, index)
  {
    hide KnownKind, ExtraValue, NormalNames, IndexOf;
    if KnownKind(name).Some? {
      if index >= |data.Known(name)| {
        return None;
      }
      return Some(Value(KnownKind(name).value, data.Known(name)[index]));
    }
    var names := NormalizeExtraByteNames(data.extraByteNames);
    NormalizedOnce(data.extraByteNames, names, NormalNames(data.extraByteNames));
    value := ExtraValue(data, IndexOf(names, name), index);
  }

  // ----- Building columns up

  /** The doubles that a value adds to a column; one entry for a built-in attribute. */
  function Pieces(v: Value): Column
    requires |v.bytes| == AttributeSize(v.kind)
  {
    if v.kind == FLOAT64_VEC2 then [v.bytes[..8], v.bytes[8..]]
    else if v.kind == FLOAT64_VEC3 then [v.bytes[..8], v.bytes[8..16], v.bytes[16..]]
    else [v.bytes]
  }

  predicate IsFloats(kind: byte) { kind == FLOAT64 || kind == FLOAT64_VEC2 || kind == FLOAT64_VEC3 }

  function Width(kind: byte): nat
  {
    if kind == FLOAT64_VEC2 then 2 else if kind == FLOAT64_VEC3 then 3 else 1
  }

  /** The data with one more value in an attribute's column, if the value fits there as number `index`. */
  function AppendAttribute(data: PointData, name: Name, value: Value, index: nat): Option<PointData>
    requires |data.extraBytes| == |data.extraByteNames| && |value.bytes| == AttributeSize(value.kind)
  {
    if KnownKind(name).Some? then
      if value.kind != KnownKind(name).value || |data.Known(name)| != index then None
      else Some(data.(columns := data.columns[name := data.Known(name) + [value.bytes]]))
    else
      match IndexOf(data.extraByteNames, name)
      case None => None
      case Some(e) =>
        if !IsFloats(value.kind) || |data.extraBytes[e]| != Times(index, Width(value.kind)) then None
        else Some(data.(extraBytes := data.extraBytes[e := data.extraBytes[e] + Pieces(value)]))
  }

  /** The column of an attribute, wherever it is kept. */
  function ColumnOf(data: PointData, name: Name): Column
    requires |data.extraBytes| == |data.extraByteNames|
  {
    if KnownKind(name).Some? then data.Known(name)
    else match IndexOf(data.extraByteNames, name) case None => [] case Some(e) => data.extraBytes[e]
  }

  /** What stays when only columns grow. */
  predicate SameShape(a: PointData, b: PointData)
  {
    && a.positions == b.positions && a.extraByteNames == b.extraByteNames
    && a.extraByteComponentCounts == b.extraByteComponentCounts && |a.extraBytes| == |b.extraBytes|
  }

  predicate Fits(name: Name, kind: byte)
  {
    if KnownKind(name).Some? then kind == KnownKind(name).value else IsFloats(kind)
  }

  /** Appending to one column leaves the others as they are. */
  lemma AppendedColumns(data: PointData, name: Name, value: Value, index: nat, other: Name)
    requires |data.extraBytes| == |data.extraByteNames| && |value.bytes| == AttributeSize(value.kind)
    requires AppendAttribute(data, name, value, index).Some?
    ensures var d := AppendAttribute(data, name, value, index).value;
      && SameShape(data, d) && Fits(name, value.kind)
      && ColumnOf(d, other) == (if other == name then ColumnOf(data, name) + Pieces(value) else ColumnOf(data, other))
      && (forall n :: n in d.columns ==> n in data.columns || (n == name && KnownKind(n).Some?))
  {
    hide KnownKind, Pieces, Times, IsFloats;
    var d := AppendAttribute(data, name, value, index).value;
    var e, o := IndexOf(data.extraByteNames, name), IndexOf(data.extraByteNames, other);
    if KnownKind(name).Some? {
      assert d.Known(other) == if other == name then data.Known(name) + [value.bytes] else data.Known(other);
      KnownPieces(value, name);
    } else {
      assert o.Some? && other != name ==> o.value != e.value;
    }
  }

  /** A value can be appended exactly when it is of the column's type and the column ends where the value belongs: doubles by
      one, two or three go to the extra bytes that were prepared for them. */
  lemma AppendedExactly(data: PointData, name: Name, value: Value, index: nat)
    requires |data.extraBytes| == |data.extraByteNames| && |value.bytes| == AttributeSize(value.kind)
    ensures AppendAttribute(data, name, value, index).Some? <==>
      if KnownKind(name).Some? then KnownKind(name) == Some(value.kind) && |ColumnOf(data, name)| == index
      else name in data.extraByteNames && 7 <= value.kind <= 9 && |ColumnOf(data, name)| == index * (value.kind - 6)
  {
    hide KnownKind, Pieces;
  }

  /** The names of the attributes that are not built in. */
  function ExtraNames(attributes: seq<Attribute>): seq<Name>
  {
    if attributes == [] then []
    else
      var a := attributes[|attributes| - 1];
      ExtraNames(attributes[..|attributes| - 1]) + if KnownKind(a.name).Some? then [] else [a.name]
  }

  function ExtraWidths(attributes: seq<Attribute>): seq<nat>
  {
    if attributes == [] then []
    else
      var a := attributes[|attributes| - 1];
      ExtraWidths(attributes[..|attributes| - 1]) + if KnownKind(a.name).Some? then [] else [Width(a.kind)]
  }

  /** Columns for the attributes that are not built in, without entries yet. */
  ghost predicate Prepared(attributes: seq<Attribute>, data: PointData)
  {
    && data.positions == [] && data.columns == map[]
    && data.extraByteNames == ExtraNames(attributes)
    && data.extraByteComponentCounts == ExtraWidths(attributes)
    && |data.extraBytes| == |data.extraByteNames| == |data.extraByteComponentCounts|
    && forall c :: c in data.extraBytes ==> c == []
  }

  method PrepareData(attributes: seq<Attribute>) returns (ok: bool, data: PointData)
    ensures ok <==> forall a :: a in attributes && KnownKind(a.name).None? ==> IsFloats(a.kind)
    ensures ok ==> Prepared(attributes, data)
  {
    hide KnownKind;
    data := NO_DATA;
    var k := 0;
    while k < |attributes|
      invariant 0 <= k <= |attributes|
      invariant forall a :: a in attributes[..k] && KnownKind(a.name).None? ==> IsFloats(a.kind)
      invariant Prepared(attributes[..k], data)
    {
      var a := attributes[k];
      assert attributes[..k + 1][..k] == attributes[..k];
      assert attributes[..k + 1] == attributes[..k] + [a];
      if KnownKind(a.name).None? {
        if !IsFloats(a.kind) {
          return false, data;
        }
        data := data.(extraByteNames := data.extraByteNames + [a.name],
                      extraByteComponentCounts := data.extraByteComponentCounts + [Width(a.kind)],
                      extraBytes := data.extraBytes + [[]]);
      }
      k := k + 1;
    }
    assert attributes[..k] == attributes;
    ok := true;
  }

  // ----- Rebuilding a tile's data

  /** The entries that a list of values makes. */
  function Stored(values: seq<Value>): Column
    requires forall v :: v in values ==> |v.bytes| == AttributeSize(v.kind)
  {
    if values == [] then [] else Stored(values[..|values| - 1]) + Pieces(values[|values| - 1])
  }

  function SourcesOf(points: seq<SpoolPoint>): (r: Column)
    ensures |r| == |points|
  {
    seq(|points|, k requires 0 <= k < |points| => points[k].source)
  }

  /** The values of the `i`th attribute. */
  function ValuesOf(points: seq<SpoolPoint>, i: nat): (r: seq<Value>)
    requires forall p :: p in points ==> i < |p.attributes|
    ensures |r| == |points|
  {
    seq(|points|, k requires 0 <= k < |points| => points[k].attributes[i])
  }

  ghost predicate AllSized(points: seq<SpoolPoint>, count: nat)
  {
    forall p :: p in points ==> Sized(p) && |p.attributes| == count
  }

  /** The column of the `i`th attribute holds the points' values. */
  ghost predicate ColumnDone(data: PointData, attributes: seq<Attribute>, points: seq<SpoolPoint>, i: nat)
    requires i < |attributes| && AllSized(points, |attributes|) && |data.extraBytes| == |data.extraByteNames|
  {
    SizedValues(points, i, |attributes|);
    ColumnOf(data, attributes[i].name) == Stored(ValuesOf(points, i))
  }

  lemma SizedValues(points: seq<SpoolPoint>, i: nat, count: nat)
    requires i < count && AllSized(points, count)
    ensures forall v :: v in ValuesOf(points, i) ==> |v.bytes| == AttributeSize(v.kind)
  {
    forall v | v in ValuesOf(points, i) ensures |v.bytes| == AttributeSize(v.kind) {
      var k :| 0 <= k < |points| && points[k].attributes[i] == v;
      assert points[k] in points;
    }
  }

  /** The data holds the points, and nothing else. */
  ghost predicate Rebuilt(data: PointData, attributes: seq<Attribute>, points: seq<SpoolPoint>)
  {
    && AllSized(points, |attributes|)
    && Shaped(data, attributes)
    && data.positions == SourcesOf(points)
    && forall i: nat :: i < |attributes| ==> ColumnDone(data, attributes, points, i)
  }

  ghost predicate Shaped(data: PointData, attributes: seq<Attribute>)
  {
    && data.extraByteNames == ExtraNames(attributes) && data.extraByteComponentCounts == ExtraWidths(attributes)
    && |data.extraBytes| == |data.extraByteNames| == |data.extraByteComponentCounts|
    && (forall n :: n in data.columns ==> KnownKind(n).Some? && Listed(attributes, n))
  }

  predicate UniqueNames(attributes: seq<Attribute>)
  {
    forall i, j :: 0 <= i < j < |attributes| ==> attributes[i].name != attributes[j].name
  }

  lemma PreparedRebuilt(attributes: seq<Attribute>, data: PointData)
    requires Prepared(attributes, data)
    ensures Rebuilt(data, attributes, [])
  {
    forall i: nat | i < |attributes| ensures ColumnDone(data, attributes, [], i) {
      NothingStored(data, attributes[i].name);
    }
  }

  lemma NothingStored(data: PointData, name: Name)
    requires |data.extraBytes| == |data.extraByteNames| && data.columns == map[]
    requires forall c :: c in data.extraBytes ==> c == []
    ensures ColumnOf(data, name) == []
  {
    hide KnownKind;
    assert forall e :: 0 <= e < |data.extraBytes| ==> data.extraBytes[e] in data.extraBytes;
  }

  /** The values put in so far fit their columns. */
  ghost predicate AllFit(attributes: seq<Attribute>, values: seq<Value>)
    requires |values| <= |attributes|
  {
    forall i :: 0 <= i < |values| ==> Fits(attributes[i].name, values[i].kind)
  }

  method AppendPoint(data: PointData, attributes: seq<Attribute>, point: SpoolPoint, ghost points: seq<SpoolPoint>)
    returns (ok: bool, result: PointData)
    requires Rebuilt(data, attributes, points) && UniqueNames(attributes)
    requires Sized(point) && |point.attributes| == |attributes|
    ensures ok ==> Rebuilt(result, attributes, points + [point]) && AllFit(attributes, point.attributes)
    ensures TypesAgree(attributes, points + [point]) ==> ok
  {
    hide AppendAttribute, ColumnOf, Pieces, ExtraNames, ExtraWidths, KnownKind, Fits, AttributeSize, TypesAgree;
    result := data.(positions := data.positions + [point.source]);
    SamePlaces(data, result);
    var pointIndex := |result.positions| - 1;
    assert SourcesOf(points + [point]) == SourcesOf(points) + [point.source];
    forall j: nat | j < |attributes| ensures ColumnDone(result, attributes, points, j) {
      assert ColumnDone(data, attributes, points, j);
    }
    var i := 0;
    while i < |attributes|
      invariant 0 <= i <= |attributes| && Shaped(result, attributes)
      invariant result.positions == SourcesOf(points + [point])
      invariant forall j: nat :: i <= j < |attributes| ==> ColumnDone(result, attributes, points, j)
      invariant forall j: nat :: j < i ==> Grown(result, attributes, points, point, j)
      invariant AllFit(attributes, point.attributes[..i])
    {
      assert point.attributes[i] in point.attributes;
      var next := AppendAttribute(result, attributes[i].name, point.attributes[i], pointIndex);
      if next.None? {
        if TypesAgree(attributes, points + [point]) {
          AppendSucceeds(result, attributes, points, point, i, pointIndex);
        }
        return false, result;
      }
      AppendedColumns(result, attributes[i].name, point.attributes[i], pointIndex, attributes[i].name);
      forall j: nat | j < |attributes|
        ensures j > i ==> ColumnDone(next.value, attributes, points, j)
        ensures j <= i ==> Grown(next.value, attributes, points, point, j)
      {
        AppendedColumns(result, attributes[i].name, point.attributes[i], pointIndex, attributes[j].name);
        assert j >= i ==> ColumnDone(result, attributes, points, j);
        assert j < i ==> Grown(result, attributes, points, point, j);
      }
      assert attributes[i] in attributes;
      result := next.value;
      i := i + 1;
    }
    assert point.attributes[..i] == point.attributes;
    forall j: nat | j < |attributes| ensures ColumnDone(result, attributes, points + [point], j) {
      GrownDone(result, attributes, points, point, j);
    }
    ok := true;
  }

  /** Columns have types that can be rebuilt, and the points' values have these types. */
  ghost predicate TypesAgree(attributes: seq<Attribute>, points: seq<SpoolPoint>)
  {
    KindsFit(attributes) && forall p :: p in points ==> ValuesMatch(p.attributes, attributes)
  }

  /** A value of the right type fits at the end of its column. */
  lemma AppendSucceeds(data: PointData, attributes: seq<Attribute>, points: seq<SpoolPoint>, point: SpoolPoint, i: nat,
                       index: nat)
    requires i < |attributes| && AllSized(points, |attributes|) && Shaped(data, attributes) && UniqueNames(attributes)
    requires ColumnDone(data, attributes, points, i) && index == |points|
    requires Sized(point) && |point.attributes| == |attributes|
    requires TypesAgree(attributes, points + [point])
    ensures point.attributes[i] in point.attributes
    ensures AppendAttribute(data, attributes[i].name, point.attributes[i], index).Some?
  {
    hide KnownKind, AttributeSize, Pieces, Stored, Times, Width, ExtraNames, ExtraWidths, IsFloats;
    var a, v := attributes[i], point.attributes[i];
    assert a in attributes && Fits(a.name, a.kind);
    assert point in points + [point];
    assert v.kind == a.kind;
    forall p | p in points ensures ValuesMatch(p.attributes, attributes) {
      assert p in points + [point];
    }
    ValuesOfKind(attributes, points, i);
    SizedValues(points, i, |attributes|);
    StoredLength(ValuesOf(points, i), a.kind);
    if KnownKind(a.name).Some? {
      KnownPieces(v, a.name);
      TimesOne(index);
    } else {
      ExtraWidthAt(attributes, a);
    }
  }

  lemma SamePlaces(a: PointData, b: PointData)
    requires b == a.(positions := b.positions) && |a.extraBytes| == |a.extraByteNames|
    ensures forall name :: ColumnOf(a, name) == ColumnOf(b, name)
  {
    hide KnownKind;
  }

  /** The column has the values of `points`, and then that of `point`. */
  ghost predicate Grown(data: PointData, attributes: seq<Attribute>, points: seq<SpoolPoint>, point: SpoolPoint, i: nat)
    requires i < |attributes| && AllSized(points, |attributes|) && |data.extraBytes| == |data.extraByteNames|
    requires Sized(point) && |point.attributes| == |attributes|
  {
    SizedValues(points, i, |attributes|);
    assert point.attributes[i] in point.attributes;
    ColumnOf(data, attributes[i].name) == Stored(ValuesOf(points, i)) + Pieces(point.attributes[i])
  }

  lemma GrownDone(data: PointData, attributes: seq<Attribute>, points: seq<SpoolPoint>, point: SpoolPoint, i: nat)
    requires i < |attributes| && AllSized(points, |attributes|) && |data.extraBytes| == |data.extraByteNames|
    requires Sized(point) && |point.attributes| == |attributes|
    requires Grown(data, attributes, points, point, i)
    ensures AllSized(points + [point], |attributes|)
    ensures ColumnDone(data, attributes, points + [point], i)
  {
    hide Pieces, AttributeSize, ColumnOf;
    SizedValues(points + [point], i, |attributes|);
    assert ValuesOf(points + [point], i) == ValuesOf(points, i) + [point.attributes[i]];
    assert ValuesOf(points + [point], i)[..|points|] == ValuesOf(points, i);
  }

  // ----- Reading rebuilt data

  /** Each name is built in, or one that normalizing keeps. */
  ghost predicate Readable(attributes: seq<Attribute>)
  {
    && UniqueNames(attributes)
    && forall a :: a in attributes ==> KnownKind(a.name).Some? || (IsIdentifier(a.name) && a.name !in RESERVED)
  }

  ghost predicate KindsFit(attributes: seq<Attribute>)
  {
    forall a :: a in attributes ==> Fits(a.name, a.kind)
  }

  lemma {:induction false} ExtraNamesFrom(attributes: seq<Attribute>, name: Name)
    requires name in ExtraNames(attributes)
    ensures exists a :: a in attributes && a.name == name && KnownKind(name).None?
  {
    hide KnownKind;
    var m := |attributes| - 1;
    if name in ExtraNames(attributes[..m]) {
      ExtraNamesFrom(attributes[..m], name);
    } else {
      assert attributes[m] in attributes;
    }
  }

  lemma {:induction false} ExtraNamesDistinct(attributes: seq<Attribute>)
    requires UniqueNames(attributes)
    ensures Distinct(ExtraNames(attributes))
  {
    hide KnownKind;
    if attributes != [] {
      var m := |attributes| - 1;
      ExtraNamesDistinct(attributes[..m]);
      if attributes[m].name in ExtraNames(attributes[..m]) {
        ExtraNamesFrom(attributes[..m], attributes[m].name);
        assert false;
      }
    }
  }

  lemma {:induction false} ExtraNamesUsable(attributes: seq<Attribute>)
    requires Readable(attributes)
    ensures Usable(ExtraNames(attributes))
  {
    hide KnownKind, RESERVED, IsIdentifier;
    if attributes != [] {
      var m := |attributes| - 1;
      var a := attributes[m];
      ExtraNamesUsable(attributes[..m]);
      if a.name in ExtraNames(attributes[..m]) {
        ExtraNamesFrom(attributes[..m], a.name);
        assert false;
      }
      assert a in attributes;
    }
  }

  /** The width that was kept for an attribute which is not built in. */
  lemma {:induction false} ExtraWidthAt(attributes: seq<Attribute>, a: Attribute)
    requires UniqueNames(attributes) && a in attributes && KnownKind(a.name).None?
    ensures |ExtraWidths(attributes)| == |ExtraNames(attributes)|
    ensures var e := IndexOf(ExtraNames(attributes), a.name);
      e.Some? && ExtraWidths(attributes)[e.value] == Width(a.kind)
    decreases attributes
  {
    hide KnownKind;
    var m := |attributes| - 1;
    var names := ExtraNames(attributes[..m]);
    ExtraCounts(attributes);
    ExtraCounts(attributes[..m]);
    assert attributes == attributes[..m] + [attributes[m]];
    if a in attributes[..m] {
      ExtraWidthAt(attributes[..m], a);
      IndexInFront(names, ExtraNames(attributes), a.name);
    } else {
      assert a == attributes[m];
      if a.name in names {
        ExtraNamesFrom(attributes[..m], a.name);
        assert false;
      }
      IndexAtEnd(names, a.name);
    }
  }

  lemma IndexAtEnd(names: seq<Name>, name: Name)
    requires name !in names
    ensures IndexOf(names + [name], name) == Some(|names|)
  {
    assert (names + [name])[..|names|] == names;
  }

  lemma {:induction false} FirstAt(names: seq<Name>, name: Name, k: nat)
    requires k < |names| && names[k] == name && name !in names[..k]
    ensures IndexOf(names, name) == Some(k)
  {
    var m := |names| - 1;
    if k < m {
      assert names[..m][..k] == names[..k];
      FirstAt(names[..m], name, k);
    }
  }

  lemma IndexInFront(names: seq<Name>, more: seq<Name>, name: Name)
    requires name in names && names <= more
    ensures IndexOf(more, name) == IndexOf(names, name)
  {
    var k := IndexOf(names, name).value;
    assert more[..k] == names[..k];
    FirstAt(more, name, k);
  }

  lemma {:induction false} ExtraCounts(attributes: seq<Attribute>)
    ensures |ExtraWidths(attributes)| == |ExtraNames(attributes)|
  {
    hide KnownKind;
    if attributes != [] {
      ExtraCounts(attributes[..|attributes| - 1]);
    }
  }

  /** The `k`th value of a column can be taken out of its entries. */
  lemma {:induction false} StoredAt(values: seq<Value>, kind: byte, k: nat)
    requires forall v :: v in values ==> v.kind == kind && |v.bytes| == AttributeSize(v.kind)
    requires k < |values|
    ensures |Stored(values)| == Times(|values|, Width(kind))
    ensures Times(k, Width(kind)) + Width(kind) <= |Stored(values)|
    ensures Stored(values)[Times(k, Width(kind))..Times(k, Width(kind)) + Width(kind)] == Pieces(values[k])
  {
    hide AttributeSize, Times, Width, Pieces;
    var m := |values| - 1;
    Successor(k, Width(kind));
    Successor(m, Width(kind));
    PiecesLength(values[m]);
    StoredLength(values, kind);
    StoredLength(values[..m], kind);
    assert values[m] in values;
    if k < m {
      StoredAt(values[..m], kind, k);
    }
  }

  lemma PiecesLength(v: Value)
    requires |v.bytes| == AttributeSize(v.kind)
    ensures |Pieces(v)| == Width(v.kind)
  {
  }

  lemma {:induction false} StoredLength(values: seq<Value>, kind: byte)
    requires forall v :: v in values ==> v.kind == kind && |v.bytes| == AttributeSize(v.kind)
    ensures |Stored(values)| == Times(|values|, Width(kind))
  {
    hide AttributeSize, Width, Pieces;
    if values != [] {
      var m := |values| - 1;
      assert values[m] in values;
      StoredLength(values[..m], kind);
      PiecesLength(values[m]);
      Successor(m, Width(kind));
      hide Times;
    }
  }

  lemma PiecesMakeValue(v: Value, column: Column, at: nat)
    requires |v.bytes| == AttributeSize(v.kind) && IsFloats(v.kind)
    requires at + Width(v.kind) <= |column| && column[at..at + Width(v.kind)] == Pieces(v)
    ensures Components(column, at, Width(v.kind)) == Some(v)
  {
    var p := column[at..at + Width(v.kind)];
    assert p[0] == column[at];
    if v.kind == FLOAT64_VEC2 {
      assert p[1] == column[at + 1];
      assert v.bytes == v.bytes[..8] + v.bytes[8..];
    } else if v.kind == FLOAT64_VEC3 {
      assert p[1] == column[at + 1] && p[2] == column[at + 2];
      assert v.bytes == v.bytes[..8] + v.bytes[8..16] + v.bytes[16..];
    }
  }

  ghost predicate AllOfKind(values: seq<Value>, kind: byte)
  {
    forall v :: v in values ==> v.kind == kind && |v.bytes| == AttributeSize(v.kind)
  }

  lemma ReadKnown(data: PointData, name: Name, values: seq<Value>, kind: byte, k: nat)
    requires data.Counted() && |data.extraBytes| == |data.extraByteNames| && AllOfKind(values, kind) && k < |values|
    requires KnownKind(name) == Some(kind) && ColumnOf(data, name) == Stored(values)
    ensures AttributeValue(data, name, k) == Some(values[k])
  {
    hide KnownKind, AttributeSize, Pieces, Stored, Times, Width;
    assert values[k] in values;
    StoredAt(values, kind, k);
    KnownPieces(values[k], name);
    TimesOne(k);
    var column := Stored(values);
    assert column[k..k + 1] == [values[k].bytes];
    assert column[k] == column[k..k + 1][0];
  }

  lemma TimesOne(k: nat)
    ensures Times(k, 1) == k
  {
  }

  lemma ReadExtra(data: PointData, name: Name, values: seq<Value>, kind: byte, k: nat, e: nat)
    requires data.Counted() && |data.extraBytes| == |data.extraByteNames| && AllOfKind(values, kind) && k < |values|
    requires KnownKind(name).None? && IsFloats(kind) && ColumnOf(data, name) == Stored(values)
    requires IndexOf(NormalNames(data.extraByteNames), name) == IndexOf(data.extraByteNames, name) == Some(e)
    requires e < |data.extraByteComponentCounts| && data.extraByteComponentCounts[e] == Width(kind)
    ensures AttributeValue(data, name, k) == Some(values[k])
  {
    hide KnownKind, AttributeSize, Pieces, Stored, Times, NormalNames, IndexOf, Components, IsFloats, Width;
    assert values[k] in values;
    StoredAt(values, kind, k);
    PiecesMakeValue(values[k], Stored(values), Times(k, Width(kind)));
  }

  /** Every value of every point can be read from data rebuilt from the points. */
  lemma RebuiltValues(data: PointData, attributes: seq<Attribute>, points: seq<SpoolPoint>, i: nat, k: nat)
    requires Rebuilt(data, attributes, points) && Readable(attributes) && KindsFit(attributes)
    requires forall p :: p in points ==> ValuesMatch(p.attributes, attributes)
    requires i < |attributes| && k < |points|
    ensures data.Counted()
    ensures AttributeValue(data, attributes[i].name, k) == Some(points[k].attributes[i])
  {
    hide KnownKind, AttributeSize, ColumnOf, ExtraNames, ExtraWidths, Stored, Width, AttributeValue, AllOfKind, Readable,
         ValuesMatch;
    var a, values := attributes[i], ValuesOf(points, i);
    SizedValues(points, i, |attributes|);
    ValuesOfKind(attributes, points, i);
    assert ColumnDone(data, attributes, points, i);
    assert a in attributes;
    if KnownKind(a.name).Some? {
      ReadKnown(data, a.name, values, a.kind, k);
    } else {
      ExtraPlace(data, attributes, a);
      ReadExtra(data, a.name, values, a.kind, k, IndexOf(ExtraNames(attributes), a.name).value);
    }
  }

  lemma ValuesOfKind(attributes: seq<Attribute>, points: seq<SpoolPoint>, i: nat)
    requires i < |attributes| && AllSized(points, |attributes|)
    requires forall p :: p in points ==> ValuesMatch(p.attributes, attributes)
    ensures AllOfKind(ValuesOf(points, i), attributes[i].kind)
  {
    hide AttributeSize;
    SizedValues(points, i, |attributes|);
    var values := ValuesOf(points, i);
    forall v | v in values ensures v.kind == attributes[i].kind {
      var j :| 0 <= j < |points| && points[j].attributes[i] == v;
      assert points[j] in points;
    }
  }

  /** Where the column of an attribute that is not built in is found again, and the width kept for it. */
  lemma ExtraPlace(data: PointData, attributes: seq<Attribute>, a: Attribute)
    requires Shaped(data, attributes) && Readable(attributes) && a in attributes && KnownKind(a.name).None?
    ensures var e := IndexOf(ExtraNames(attributes), a.name);
      && e.Some? && IndexOf(NormalNames(data.extraByteNames), a.name) == IndexOf(data.extraByteNames, a.name) == e
      && e.value < |data.extraByteComponentCounts| && data.extraByteComponentCounts[e.value] == Width(a.kind)
  {
    hide KnownKind, ExtraNames, ExtraWidths, RESERVED, IsIdentifier, Width, NormalNames, IndexOf, Normalized;
    ExtraNamesUsable(attributes);
    UsableKept(ExtraNames(attributes));
    NormalizedOnce(data.extraByteNames, ExtraNames(attributes), NormalNames(data.extraByteNames));
    ExtraWidthAt(attributes, a);
  }

  // ----- Validity of rebuilt data

  /** A column of rebuilt data has as many entries as its values take. */
  lemma RebuiltColumn(data: PointData, attributes: seq<Attribute>, points: seq<SpoolPoint>, a: Attribute)
    requires Rebuilt(data, attributes, points) && a in attributes
    requires forall p :: p in points ==> ValuesMatch(p.attributes, attributes)
    ensures |ColumnOf(data, a.name)| == Times(|points|, Width(a.kind))
  {
    hide KnownKind, AttributeSize, ColumnOf, Stored, Times, Width, ValuesMatch;
    var i :| 0 <= i < |attributes| && attributes[i] == a;
    SizedValues(points, i, |attributes|);
    ValuesOfKind(attributes, points, i);
    assert ColumnDone(data, attributes, points, i);
    StoredLength(ValuesOf(points, i), a.kind);
  }

  lemma FitsWidth(name: Name, kind: byte)
    requires KnownKind(name).Some? && Fits(name, kind)
    ensures Width(kind) == 1
  {
  }

  /** Rebuilt data of points has exactly the built-in columns that its attributes name, each with an entry a point. */
  lemma RebuiltKnown(data: PointData, attributes: seq<Attribute>, points: seq<SpoolPoint>, name: Name)
    requires Rebuilt(data, attributes, points) && KindsFit(attributes) && points != [] && KnownKind(name).Some?
    requires forall p :: p in points ==> ValuesMatch(p.attributes, attributes)
    ensures |data.Known(name)| == if Listed(attributes, name) then |data.positions| else 0
  {
    hide KnownKind, Fits, ColumnDone, ValuesMatch, AllSized, Width;
    if Listed(attributes, name) {
      var a :| a in attributes && a.name == name;
      RebuiltColumn(data, attributes, points, a);
      FitsWidth(name, a.kind);
      TimesOne(|points|);
    }
  }

  lemma FloatsWidth(name: Name, kind: byte)
    requires KnownKind(name).None? && Fits(name, kind)
    ensures 1 <= Width(kind) <= 3
  {
  }

  lemma RebuiltExtra(data: PointData, attributes: seq<Attribute>, points: seq<SpoolPoint>, e: nat)
    requires Rebuilt(data, attributes, points) && KindsFit(attributes) && UniqueNames(attributes) && e < |data.extraBytes|
    requires forall p :: p in points ==> ValuesMatch(p.attributes, attributes)
    ensures data.ExtraFits(e)
  {
    hide KnownKind, Fits, ColumnDone, ValuesMatch, AllSized, Width, ExtraNames, ExtraWidths, Times, IndexOf;
    var names := ExtraNames(attributes);
    assert names[e] in names;
    ExtraNamesFrom(attributes, names[e]);
    var a :| a in attributes && a.name == names[e] && KnownKind(a.name).None?;
    ExtraNamesDistinct(attributes);
    FirstAt(names, names[e], e);
    ExtraWidthAt(attributes, a);
    RebuiltColumn(data, attributes, points, a);
    FloatsWidth(a.name, a.kind);
  }

  /** Rebuilt data of points is valid exactly when the attributes name the columns that belong together only together. */
  lemma RebuiltValid(data: PointData, attributes: seq<Attribute>, points: seq<SpoolPoint>)
    requires Rebuilt(data, attributes, points) && KindsFit(attributes) && UniqueNames(attributes) && points != []
    requires forall p :: p in points ==> ValuesMatch(p.attributes, attributes)
    ensures data.IsValid() <==> NamedTogether(attributes)
  {
    hide KnownKind, ColumnDone, ValuesMatch, AllSized, Ascii, Listed, KindsFit, UniqueNames, PointData.Known,
         PointData.ExtraFits;
    forall e: nat | e < |data.extraBytes| ensures data.ExtraFits(e) {
      RebuiltExtra(data, attributes, points, e);
    }
    forall n | n in data.columns ensures data.columns[n] == [] || |data.columns[n]| == |data.positions| {
      RebuiltKnown(data, attributes, points, n);
      KnownColumn(data, n);
    }
    forall k | 0 <= k < |TOGETHER|
      ensures data.Together(TOGETHER[k].0, TOGETHER[k].1)
         <==> (Listed(attributes, Ascii(TOGETHER[k].0)) <==> Listed(attributes, Ascii(TOGETHER[k].1)))
    {
      TogetherKnown(k);
      RebuiltKnown(data, attributes, points, Ascii(TOGETHER[k].0));
      RebuiltKnown(data, attributes, points, Ascii(TOGETHER[k].1));
    }
  }

  lemma KnownColumn(data: PointData, name: Name)
    requires name in data.columns
    ensures data.Known(name) == data.columns[name]
  {
  }

  /** The attributes name every built-in column that the data has, and no other. */
  ghost predicate ListsColumns(attributes: seq<Attribute>, data: PointData)
  {
    forall name :: KnownKind(name).Some? ==> (Listed(attributes, name) <==> data.Known(name) != [])
  }

  /** So what is listed for valid data belongs together. */
  lemma ListedTogether(attributes: seq<Attribute>, data: PointData)
    requires data.IsValid() && ListsColumns(attributes, data)
    ensures NamedTogether(attributes)
  {
    hide KnownKind, Listed, Ascii, PointData.Known, PointData.ExtraFits;
    forall k | 0 <= k < |TOGETHER|
      ensures Listed(attributes, Ascii(TOGETHER[k].0)) <==> Listed(attributes, Ascii(TOGETHER[k].1))
    {
      TogetherKnown(k);
      assert data.Together(TOGETHER[k].0, TOGETHER[k].1);
    }
  }

  lemma KnownPieces(v: Value, name: Name)
    requires KnownKind(name) == Some(v.kind) && |v.bytes| == AttributeSize(v.kind)
    ensures Pieces(v) == [v.bytes] && Width(v.kind) == 1
  {
  }
}
