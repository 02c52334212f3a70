/** When two cache descriptors are the same for the cache, said over their fields. */
module CacheFields {
  import opened Options
  import opened Seqs
  import opened ExtraByteNames
  import opened CacheKey
  import opened CacheLayout

  // ----- What normalizing does to a text

  predicate Blanks(s: Text) { forall c :: c in s ==> c in Ascii(" \t\r\n") }

  predicate IsUpper(c: int) { 'A' as int <= c <= 'Z' as int }

  lemma {:induction false} TrimLeftMeans(s: Text) returns (front: Text)
    ensures s == front + TrimLeft(s) && Blanks(front)
    ensures TrimLeft(s) != [] ==> TrimLeft(s)[0] !in Ascii(" \t\r\n")
  {
    BlankCharacters();
    if s != [] && IsBlank(s[0]) {
      front := TrimLeftMeans(s[1..]);
      front := [s[0]] + front;
    } else {
      front := [];
    }
  }

  lemma BlankCharacters()
    ensures forall c :: IsBlank(c) <==> c in Ascii(" \t\r\n")
  {
    var blanks := Ascii(" \t\r\n");
    assert blanks == [' ' as int, '\t' as int, '\r' as int, '\n' as int];
  }

  lemma {:induction false} TrimRightMeans(s: Text) returns (back: Text)
    ensures s == TrimRight(s) + back && Blanks(back)
    ensures TrimRight(s) != [] ==> TrimRight(s)[|TrimRight(s)| - 1] !in Ascii(" \t\r\n")
    ensures TrimRight(s) <= s
  {
    BlankCharacters();
    if s != [] && IsBlank(s[|s| - 1]) {
      back := TrimRightMeans(s[..|s| - 1]);
      back := back + [s[|s| - 1]];
      assert s == s[..|s| - 1] + [s[|s| - 1]];
    } else {
      back := [];
    }
  }

  /** Trimming takes blanks off both ends, and leaves none there. */
  lemma TrimMeans(s: Text) returns (front: Text, back: Text)
    ensures s == front + Trim(s) + back && Blanks(front) && Blanks(back)
    ensures Trim(s) != [] ==> Trim(s)[0] !in Ascii(" \t\r\n") && Trim(s)[|Trim(s)| - 1] !in Ascii(" \t\r\n")
  {
    hide Ascii;
    front := TrimLeftMeans(s);
    back := TrimRightMeans(TrimLeft(s));
  }

  /** Lowering changes the upper-case letters, by 32. */
  lemma LowerMeans(s: Text, k: nat)
    requires k < |s|
    ensures Lower(s)[k] == if IsUpper(s[k]) then s[k] + 32 else s[k]
  {
  }

  // ----- The fields that count

  function Identifier(d: Descriptor): Text
  {
    if d.source.identifier != [] then d.source.identifier else d.source.canonicalPath
  }

  function Validation(d: Descriptor): Text
  {
    if d.source.validationToken != [] then d.source.validationToken else d.source.contentIdentity
  }

  /** A list of arguments as the cache sees it: in any order, names up to case and blanks at their end, values up to
      blanks around them. */
  function Seen(values: seq<Argument>): multiset<(Text, Text)> { multiset(SeenList(values)) }

  function SeenList(values: seq<Argument>): (r: seq<(Text, Text)>)
    ensures |r| == |values|
  {
    seq(|values|, i requires 0 <= i < |values| => (Lower(TrimRight(values[i].name)), Trim(values[i].value)))
  }

  /** The same was asked for, of the same source. */
  ghost predicate SameRequest(d: Descriptor, e: Descriptor)
  {
    && Trim(Identifier(d)) == Trim(Identifier(e))
    && Trim(d.pluginVersion) == Trim(e.pluginVersion) && Trim(d.parserVersion) == Trim(e.parserVersion)
    && Trim(d.openUsdVersion) == Trim(e.openUsdVersion)
    && Seen(d.attributes) == Seen(e.attributes) && Seen(d.tileAndLod) == Seen(e.tileAndLod)
    && Seen(d.downsampling) == Seen(e.downsampling)
  }

  /** The source contains the same. */
  ghost predicate SameContent(d: Descriptor, e: Descriptor)
  {
    && d.source.sizeBytes == e.source.sizeBytes && d.source.modifiedTime == e.source.modifiedTime
    && Trim(Validation(d)) == Trim(Validation(e))
    && Seen(d.coordinateTransform) == Seen(e.coordinateTransform) && Seen(d.sourceDerived) == Seen(e.sourceDerived)
  }

  /** The descriptors agree in all fields, as far as blanks, case of names and order of arguments do not matter. */
  ghost predicate SameFields(d: Descriptor, e: Descriptor) { SameRequest(d, e) && SameContent(d, e) }

  // ----- The arguments by the fields they come from

  lemma {:induction false} TrimRightBehind(front: Text, rest: Text)
    requires Solid(front)
    ensures TrimRight(front + rest) == front + TrimRight(rest)
    decreases rest
  {
    if rest == [] {
      assert front + rest == front;
    } else if IsBlank(rest[|rest| - 1]) {
      assert (front + rest)[..|front + rest| - 1] == front + rest[..|rest| - 1];
      TrimRightBehind(front, rest[..|rest| - 1]);
    }
  }

  lemma NormalizedBehind(front: Text, rest: Text)
    requires Solid(front)
    ensures NormalizeName(front + rest) == Lower(front) + Lower(TrimRight(rest))
  {
    assert TrimLeft(front + rest) == front + rest;
    TrimRightBehind(front, rest);
  }

  /** Which field an argument of this name comes from. */
  function FieldOf(name: Text): nat
  {
    if |name| < 8 then 12
    else if name[0] == 'p' as int && name[1] == 'l' as int then 1
    else if name[0] == 'p' as int then 2
    else if name[0] == 'o' as int then 3
    else if name[0] == 'a' as int then 4
    else if name[0] == 't' as int && name[1] == 'i' as int then 5
    else if name[0] == 'd' as int then 6
    else if name[0] == 't' as int then 10
    else if name[6] == '-' as int then 11
    else if name[7] == 'i' as int then 0
    else if name[7] == 's' as int then 7
    else if name[7] == 'm' as int then 8
    else 9
  }

  const FRONTS: seq<string> :=
    ["source.identifier", "plugin.version", "parser.version", "openusd.version", "attributes.", "tile-lod.", "downsampling.",
     "source.size", "source.modified", "source.validation", "transform.", "source-derived."]

  lemma FrontLetters(k: nat)
    requires k < |FRONTS|
    ensures Solid(Ascii(FRONTS[k])) && |Lower(Ascii(FRONTS[k]))| >= 8 && FieldOf(Lower(Ascii(FRONTS[k]))) == k
  {
    var front := FRONTS[k];
    AsciiAt(front, 0);
    AsciiAt(front, 1);
    AsciiAt(front, 6);
    AsciiAt(front, 7);
  }

  /** The arguments of one field. */
  function FieldArguments(k: nat, values: seq<Argument>): (r: seq<Argument>)
    requires k < |FRONTS|
    ensures |r| == |values|
  {
    seq(|values|, i requires 0 <= i < |values| =>
      Argument(Lower(Ascii(FRONTS[k])) + Lower(TrimRight(values[i].name)), Trim(values[i].value)))
  }

  function Single(value: Text): seq<Argument> { [Argument([], value)] }

  /** The fields' values, in the order of `FRONTS`. */
  function Fields(d: Descriptor): (r: seq<seq<Argument>>)
    ensures |r| == |FRONTS|
  {
    [Single(Identifier(d)), Single(d.pluginVersion), Single(d.parserVersion), Single(d.openUsdVersion),
     d.attributes, d.tileAndLod, d.downsampling,
     Single(Decimal(d.source.sizeBytes)), Single(SignedDecimal(d.source.modifiedTime)), Single(Validation(d)),
     d.coordinateTransform, d.sourceDerived]
  }

  function Segments(fields: seq<seq<Argument>>): (r: seq<seq<Argument>>)
    requires |fields| <= |FRONTS|
    ensures |r| == |fields| && forall k :: 0 <= k < |r| ==> r[k] == FieldArguments(k, fields[k])
  {
    seq(|fields|, k requires 0 <= k < |fields| => FieldArguments(k, fields[k]))
  }

  lemma PrefixedNormal(k: nat, values: seq<Argument>)
    requires k < |FRONTS|
    ensures NormalAll(Prefixed(Ascii(FRONTS[k]), values)) == FieldArguments(k, values)
  {
    hide Ascii, Lower, TrimRight, NormalizeName;
    FrontLetters(k);
    forall i | 0 <= i < |values|
      ensures NormalAll(Prefixed(Ascii(FRONTS[k]), values))[i] == FieldArguments(k, values)[i]
    {
      NormalizedBehind(Ascii(FRONTS[k]), values[i].name);
    }
  }

  lemma SingleNormal(k: nat, value: Text)
    requires k < |FRONTS|
    ensures NormalAll([Argument(Ascii(FRONTS[k]), value)]) == FieldArguments(k, Single(value))
  {
    hide Ascii, NormalAll, FieldArguments;
    PrefixedNormal(k, Single(value));
    assert Prefixed(Ascii(FRONTS[k]), Single(value)) == [Argument(Ascii(FRONTS[k]) + [], value)];
    assert Ascii(FRONTS[k]) + [] == Ascii(FRONTS[k]);
  }

  lemma NormalAppend(a: seq<Argument>, b: seq<Argument>)
    ensures NormalAll(a + b) == NormalAll(a) + NormalAll(b)
  {
    hide Normal;
  }

  lemma FlattenNext(segments: seq<seq<Argument>>, k: nat)
    requires k < |segments|
    ensures Flatten(segments[..k + 1]) == Flatten(segments[..k]) + segments[k]
  {
    assert segments[..k + 1][..k] == segments[..k];
  }

  /** The first half of the arguments, field by field. */
  lemma GenerationFields(d: Descriptor)
    ensures NormalAll(MakeGenerationArguments(d)) == Flatten(Segments(Fields(d))[..7])
  {
    hide NormalAll, FieldArguments, Ascii, Prefixed, Flatten;
    var parts := Segments(Fields(d));
    SingleNormal(0, Identifier(d));
    SingleNormal(1, d.pluginVersion);
    SingleNormal(2, d.parserVersion);
    SingleNormal(3, d.openUsdVersion);
    PrefixedNormal(4, d.attributes);
    PrefixedNormal(5, d.tileAndLod);
    PrefixedNormal(6, d.downsampling);
    var a0, a1 := [Argument(Ascii(FRONTS[0]), Identifier(d))], [Argument(Ascii(FRONTS[1]), d.pluginVersion)];
    var a2, a3 := [Argument(Ascii(FRONTS[2]), d.parserVersion)], [Argument(Ascii(FRONTS[3]), d.openUsdVersion)];
    var a4, a5 := Prefixed(Ascii(FRONTS[4]), d.attributes), Prefixed(Ascii(FRONTS[5]), d.tileAndLod);
    var a6 := Prefixed(Ascii(FRONTS[6]), d.downsampling);
    assert MakeGenerationArguments(d) == a0 + a1 + a2 + a3 + a4 + a5 + a6;
    NormalAppend(a0, a1);
    NormalAppend(a0 + a1, a2);
    NormalAppend(a0 + a1 + a2, a3);
    NormalAppend(a0 + a1 + a2 + a3, a4);
    NormalAppend(a0 + a1 + a2 + a3 + a4, a5);
    NormalAppend(a0 + a1 + a2 + a3 + a4 + a5, a6);
    SevenFlat(parts);
  }

  lemma SevenFlat(parts: seq<seq<Argument>>)
    requires |parts| >= 7
    ensures Flatten(parts[..7]) == parts[0] + parts[1] + parts[2] + parts[3] + parts[4] + parts[5] + parts[6]
  {
    assert parts[..0] == [];
    assert [] + parts[0] == parts[0];
    FlattenNext(parts, 0);
    FlattenNext(parts, 1);
    FlattenNext(parts, 2);
    FlattenNext(parts, 3);
    FlattenNext(parts, 4);
    FlattenNext(parts, 5);
    FlattenNext(parts, 6);
  }

  /** The second half. */
  lemma IdentityFields(d: Descriptor)
    ensures NormalAll(MakeCacheArguments(d)) == Flatten(Segments(Fields(d)))
  {
    hide NormalAll, FieldArguments, Ascii, Prefixed, Flatten, MakeGenerationArguments;
    var parts := Segments(Fields(d));
    GenerationFields(d);
    SingleNormal(7, Decimal(d.source.sizeBytes));
    SingleNormal(8, SignedDecimal(d.source.modifiedTime));
    SingleNormal(9, Validation(d));
    PrefixedNormal(10, d.coordinateTransform);
    PrefixedNormal(11, d.sourceDerived);
    var g, a7 := MakeGenerationArguments(d), [Argument(Ascii(FRONTS[7]), Decimal(d.source.sizeBytes))];
    var a8, a9 := [Argument(Ascii(FRONTS[8]), SignedDecimal(d.source.modifiedTime))], [Argument(Ascii(FRONTS[9]), Validation(d))];
    var a10, a11 := Prefixed(Ascii(FRONTS[10]), d.coordinateTransform), Prefixed(Ascii(FRONTS[11]), d.sourceDerived);
    assert MakeCacheArguments(d) == g + a7 + a8 + a9 + a10 + a11;
    NormalAppend(g, a7);
    NormalAppend(g + a7, a8);
    NormalAppend(g + a7 + a8, a9);
    NormalAppend(g + a7 + a8 + a9, a10);
    NormalAppend(g + a7 + a8 + a9 + a10, a11);
    FlattenNext(parts, 7);
    FlattenNext(parts, 8);
    FlattenNext(parts, 9);
    FlattenNext(parts, 10);
    FlattenNext(parts, 11);
    assert parts[..12] == parts;
  }

  // ----- Fields do not mix

  lemma FieldOfBeginning(front: Text, rest: Text)
    requires |front| >= 8
    ensures FieldOf(front + rest) == FieldOf(front)
  {
  }

  /** An argument occurs among all fields as often as in its own. */
  lemma {:induction false} OwnFieldOnly(fields: seq<seq<Argument>>, x: Argument)
    requires |fields| <= |FRONTS|
    ensures var k := FieldOf(x.name);
      multiset(Flatten(Segments(fields)))[x] == if k < |fields| then multiset(FieldArguments(k, fields[k]))[x] else 0
  {
    if fields != [] {
      var m, k := |fields| - 1, FieldOf(x.name);
      OwnFieldOnly(fields[..m], x);
      hide FieldOf, Ascii;
      assert Segments(fields)[..m] == Segments(fields[..m]);
      var last := FieldArguments(m, fields[m]);
      forall i | 0 <= i < |last| ensures FieldOf(last[i].name) == m {
        FrontLetters(m);
        FieldOfBeginning(Lower(Ascii(FRONTS[m])), Lower(TrimRight(fields[m][i].name)));
      }
      if k != m {
        assert x !in last;
      }
    }
  }

  /** The arguments of one field are the same exactly when the lists are seen the same. */
  lemma {:induction false} SeenCounts(k: nat, values: seq<Argument>, name: Text, value: Text)
    requires k < |FRONTS|
    ensures multiset(FieldArguments(k, values))[Argument(Lower(Ascii(FRONTS[k])) + name, value)] == Seen(values)[(name, value)]
  {
    if values == [] {
      assert FieldArguments(k, values) == [];
    } else {
      var m, front := |values| - 1, Lower(Ascii(FRONTS[k]));
      SeenCounts(k, values[..m], name, value);
      hide Ascii, Lower, TrimRight;
      var all, pairs := FieldArguments(k, values), SeenList(values);
      assert all == FieldArguments(k, values[..m]) + [all[m]];
      assert pairs == SeenList(values[..m]) + [pairs[m]];
      assert Seen(values) == multiset(pairs);
      assert (front + name)[|front|..] == name && (front + pairs[m].0)[|front|..] == pairs[m].0;
    }
  }

  lemma FieldCounts(k: nat, a: seq<Argument>, b: seq<Argument>, x: Argument)
    requires k < |FRONTS| && Seen(a) == Seen(b)
    ensures multiset(FieldArguments(k, a))[x] == multiset(FieldArguments(k, b))[x]
  {
    hide Ascii, Lower, TrimRight, Seen;
    var front := Lower(Ascii(FRONTS[k]));
    if front <= x.name {
      SeenCounts(k, a, x.name[|front|..], x.value);
      SeenCounts(k, b, x.name[|front|..], x.value);
      assert x == Argument(front + x.name[|front|..], x.value);
    } else {
      assert x !in FieldArguments(k, a) && x !in FieldArguments(k, b);
    }
  }

  lemma FieldsAgree(d: seq<seq<Argument>>, e: seq<seq<Argument>>)
    requires |d| == |e| <= |FRONTS|
    ensures multiset(Flatten(Segments(d))) == multiset(Flatten(Segments(e)))
       <==> forall k :: 0 <= k < |d| ==> Seen(d[k]) == Seen(e[k])
  {
    hide Ascii, Lower, Segments, FieldArguments, Flatten, FieldOf, Seen;
    if multiset(Flatten(Segments(d))) == multiset(Flatten(Segments(e))) {
      forall k | 0 <= k < |d| ensures Seen(d[k]) == Seen(e[k]) {
        forall pair ensures Seen(d[k])[pair] == Seen(e[k])[pair] {
          var x := Argument(Lower(Ascii(FRONTS[k])) + pair.0, pair.1);
          FrontLetters(k);
          FieldOfBeginning(Lower(Ascii(FRONTS[k])), pair.0);
          OwnFieldOnly(d, x);
          OwnFieldOnly(e, x);
          SeenCounts(k, d[k], pair.0, pair.1);
          SeenCounts(k, e[k], pair.0, pair.1);
        }
      }
    }
    if forall k :: 0 <= k < |d| ==> Seen(d[k]) == Seen(e[k]) {
      forall x ensures multiset(Flatten(Segments(d)))[x] == multiset(Flatten(Segments(e)))[x] {
        OwnFieldOnly(d, x);
        OwnFieldOnly(e, x);
        var k := FieldOf(x.name);
        if k < |d| {
          FieldCounts(k, d[k], e[k], x);
        }
      }
    }
  }

  lemma SingleSeen(a: Text, b: Text)
    ensures Seen(Single(a)) == Seen(Single(b)) <==> Trim(a) == Trim(b)
  {
    hide Trim;
    assert SeenList(Single(a))[0] in Seen(Single(a));
    assert SeenList(Single(a)) == [SeenList(Single(a))[0]] && SeenList(Single(b)) == [SeenList(Single(b))[0]];
  }

  /** Numbers are written down without blanks, each in its own way. */
  lemma NumbersWritten(i: int, j: int)
    ensures Trim(SignedDecimal(i)) == Trim(SignedDecimal(j)) <==> i == j
    ensures i >= 0 ==> SignedDecimal(i) == Decimal(i)
  {
    NotBlank(i);
    NotBlank(j);
    NumberOfDecimal(if i < 0 then -i else i);
    NumberOfDecimal(if j < 0 then -j else j);
    var a, b := SignedDecimal(i), SignedDecimal(j);
    assert i < 0 ==> a[1..] == Decimal(-i);
    assert j < 0 ==> b[1..] == Decimal(-j);
    assert i >= 0 ==> IsDigit(a[0]);
    assert j >= 0 ==> IsDigit(b[0]);
  }

  lemma NotBlank(i: int)
    ensures Trim(SignedDecimal(i)) == SignedDecimal(i)
  {
    var s := SignedDecimal(i);
    hide Decimal;
    assert s[|s| - 1] in s && s[0] in s;
    assert forall c :: c in s ==> IsDigit(c) || c == '-' as int;
  }

  /** Valid descriptors share the flat key exactly when their fields agree, and they share both directories of the layout
      exactly then. */
  lemma DescriptorsAgree(hash: Text -> Text, d: Descriptor, e: Descriptor)
    requires Injective(hash) && (forall s :: hash(s) != []) && d.IsValid() && e.IsValid()
    ensures StableCacheKey(hash, d) == StableCacheKey(hash, e) <==> SameFields(d, e)
    ensures TryBuildLayout(hash, d) == TryBuildLayout(hash, e) <==> SameFields(d, e)
  {
    hide *;
    LayoutByFlatKey(hash, d, e);
    KeyByFields(hash, d, e);
    FieldsAgree(Fields(d), Fields(e));
    SeenFields(d, e);
  }

  lemma KeyByFields(hash: Text -> Text, d: Descriptor, e: Descriptor)
    requires Injective(hash) && d.IsValid() && e.IsValid()
    ensures StableCacheKey(hash, d) == StableCacheKey(hash, e)
       <==> multiset(Flatten(Segments(Fields(d)))) == multiset(Flatten(Segments(Fields(e))))
  {
    hide NormalForm, NormalAll, MakeCacheArguments, Flatten, Segments, Fields, Descriptor.IsValid;
    NormalFormsAgree(MakeCacheArguments(d), MakeCacheArguments(e));
    IdentityFields(d);
    IdentityFields(e);
  }

  lemma SeenFields(d: Descriptor, e: Descriptor)
    ensures SameRequest(d, e) <==> forall k :: 0 <= k < 7 ==> Seen(Fields(d)[k]) == Seen(Fields(e)[k])
    ensures SameFields(d, e) <==> forall k :: 0 <= k < |FRONTS| ==> Seen(Fields(d)[k]) == Seen(Fields(e)[k])
  {
    hide Seen, Trim, Single, SignedDecimal, Decimal, Identifier, Validation;
    SingleSeen(Identifier(d), Identifier(e));
    SingleSeen(d.pluginVersion, e.pluginVersion);
    SingleSeen(d.parserVersion, e.parserVersion);
    SingleSeen(d.openUsdVersion, e.openUsdVersion);
    SingleSeen(Decimal(d.source.sizeBytes), Decimal(e.source.sizeBytes));
    SingleSeen(SignedDecimal(d.source.modifiedTime), SignedDecimal(e.source.modifiedTime));
    SingleSeen(Validation(d), Validation(e));
    NumbersWritten(d.source.sizeBytes, e.source.sizeBytes);
    NumbersWritten(e.source.sizeBytes, d.source.sizeBytes);
    NumbersWritten(d.source.modifiedTime, e.source.modifiedTime);
    var a, b := Fields(d), Fields(e);
    if forall k :: 0 <= k < 7 ==> Seen(a[k]) == Seen(b[k]) {
      assert Seen(a[0]) == Seen(b[0]) && Seen(a[1]) == Seen(b[1]) && Seen(a[2]) == Seen(b[2]) && Seen(a[3]) == Seen(b[3]);
      assert Seen(a[4]) == Seen(b[4]) && Seen(a[5]) == Seen(b[5]) && Seen(a[6]) == Seen(b[6]);
    }
    if forall k :: 0 <= k < |FRONTS| ==> Seen(a[k]) == Seen(b[k]) {
      assert forall k :: 0 <= k < 7 ==> Seen(a[k]) == Seen(b[k]);
      assert Seen(a[7]) == Seen(b[7]);
      assert Seen(a[8]) == Seen(b[8]) && Seen(a[9]) == Seen(b[9]) && Seen(a[10]) == Seen(b[10]) && Seen(a[11]) == Seen(b[11]);
    }
  }

  /** What was asked for chooses the directory, whatever the source contains; and what the source contains chooses the entry in
      it, whatever was asked for. So the revisions of a source lie side by side. */
  lemma RevisionsSideBySide(hash: Text -> Text, d: Descriptor, e: Descriptor)
    requires Injective(hash) && (forall s :: hash(s) != []) && d.IsValid() && e.IsValid()
    ensures TryBuildLayout(hash, d).Some? && TryBuildLayout(hash, e).Some?
    ensures var a, b := TryBuildLayout(hash, d).value, TryBuildLayout(hash, e).value;
      (a.generation == b.generation <==> SameRequest(d, e)) && (a.entry == b.entry <==> SameContent(d, e))
  {
    hide KeyOf, MakeGenerationArguments, MakeIdentityArguments, SameRequest, SameContent, Seen, Trim, Descriptor.IsValid;
    var both := WithContent(d, e);
    KeysNotEmpty(hash, d);
    KeysNotEmpty(hash, e);
    RequestKeys(hash, d, e);
    ContentReplaced(d, e);
    FlatKeyAgrees(hash, d, both);
    DescriptorsAgree(hash, d, both);
  }

  lemma KeysNotEmpty(hash: Text -> Text, d: Descriptor)
    requires (forall s :: hash(s) != []) && d.IsValid()
    ensures TryBuildLayout(hash, d)
         == Some(Layout(KeyOf(hash, MakeGenerationArguments(d)), KeyOf(hash, MakeIdentityArguments(d))))
  {
    hide MakeGenerationArguments, MakeIdentityArguments, NormalForm;
  }

  lemma RequestKeys(hash: Text -> Text, d: Descriptor, e: Descriptor)
    requires Injective(hash)
    ensures KeyOf(hash, MakeGenerationArguments(d)) == KeyOf(hash, MakeGenerationArguments(e)) <==> SameRequest(d, e)
  {
    hide NormalForm, NormalAll, MakeGenerationArguments, Flatten, FieldArguments, Fields, SameRequest, Seen;
    NormalFormsAgree(MakeGenerationArguments(d), MakeGenerationArguments(e));
    GenerationFields(d);
    GenerationFields(e);
    assert Segments(Fields(d))[..7] == Segments(Fields(d)[..7]) && Segments(Fields(e))[..7] == Segments(Fields(e)[..7]);
    FieldsAgree(Fields(d)[..7], Fields(e)[..7]);
    SeenFields(d, e);
  }

  /** What was asked for in `d`, of the source as `e` has it. */
  function WithContent(d: Descriptor, e: Descriptor): Descriptor
  {
    d.(source := e.source.(identifier := d.source.identifier, canonicalPath := d.source.canonicalPath),
       coordinateTransform := e.coordinateTransform, sourceDerived := e.sourceDerived)
  }

  lemma ContentReplaced(d: Descriptor, e: Descriptor)
    ensures var both := WithContent(d, e);
      && MakeGenerationArguments(both) == MakeGenerationArguments(d) && MakeIdentityArguments(both) == MakeIdentityArguments(e)
      && SameRequest(d, both) && (SameContent(d, both) <==> SameContent(d, e))
    ensures d.IsValid() && e.IsValid() ==> WithContent(d, e).IsValid()
  {
    hide Trim, Seen, Prefixed, Ascii, Decimal, Named;
  }

  /** A descriptor is valid, and only then has a key, when its source is named and has a token or an identity, the versions
      are there, and no argument's name is blank. */
  lemma ValidExactly(hash: Text -> Text, d: Descriptor)
    requires forall s :: hash(s) != []
    ensures StableCacheKey(hash, d) != [] <==>
      && Identifier(d) != [] && Validation(d) != []
      && d.pluginVersion != [] && d.parserVersion != [] && d.openUsdVersion != []
      && forall a :: a in d.coordinateTransform + d.attributes + d.tileAndLod + d.downsampling + d.sourceDerived ==>
           Trim(a.name) != []
    ensures TryBuildLayout(hash, d).Some? <==> StableCacheKey(hash, d) != []
  {
    hide Trim, MakeGenerationArguments, MakeIdentityArguments, NormalForm;
    NamedExactly(d.coordinateTransform);
    NamedExactly(d.attributes);
    NamedExactly(d.tileAndLod);
    NamedExactly(d.downsampling);
    NamedExactly(d.sourceDerived);
  }

  lemma NamedExactly(arguments: seq<Argument>)
    ensures Named(arguments) <==> forall a :: a in arguments ==> Trim(a.name) != []
  {
    hide Trim, Ascii, IsBlank;
    BlankCharacters();
    forall a | a in arguments ensures Trim(a.name) != [] <==> exists c :: c in a.name && !IsBlank(c) {
      var front, back := TrimMeans(a.name);
      if Trim(a.name) != [] {
        assert Trim(a.name)[0] in a.name;
      }
    }
  }

  // ----- The order of the arguments

  /** Dictionary order: a beginning comes first, and otherwise the first byte that differs decides. */
  ghost predicate DictionaryAtMost(a: Text, b: Text)
  {
    a <= b || exists k :: FirstDifference(a, b, k) && a[k] < b[k]
  }

  ghost predicate FirstDifference(a: Text, b: Text, k: int)
  {
    0 <= k < |a| && k < |b| && a[..k] == b[..k] && a[k] != b[k]
  }

  lemma {:induction false} TextsInDictionaryOrder(a: Text, b: Text)
    ensures TextAtMost(a, b) <==> DictionaryAtMost(a, b)
    decreases a
  {
    if a != [] && b != [] {
      var x, y := a[1..], b[1..];
      TextsInDictionaryOrder(x, y);
      if a[0] == b[0] {
        assert a == [a[0]] + x && b == [b[0]] + y;
        if x <= y {
          assert a <= b;
        }
        if k :| FirstDifference(x, y, k) && x[k] < y[k] {
          assert a[..k + 1] == [a[0]] + x[..k] && b[..k + 1] == [b[0]] + y[..k];
          assert FirstDifference(a, b, k + 1);
        }
        if k :| FirstDifference(a, b, k) && a[k] < b[k] {
          assert k > 0 && x[..k - 1] == a[..k][1..] && y[..k - 1] == b[..k][1..];
          assert FirstDifference(x, y, k - 1);
        }
      } else {
        if a[0] < b[0] {
          assert a[..0] == b[..0] && FirstDifference(a, b, 0);
        }
      }
    }
  }

  /** What is hashed are the normalized arguments in dictionary order of their names, and of their values where those are
      equal. */
  lemma HashedInOrder(arguments: seq<Argument>) returns (ordered: seq<Argument>)
    ensures Decode(NormalForm(arguments)) == Some(ordered) && multiset(ordered) == multiset(NormalAll(arguments))
    ensures forall i, j :: 0 <= i < j < |ordered| ==>
      if ordered[i].name == ordered[j].name then DictionaryAtMost(ordered[i].value, ordered[j].value)
      else DictionaryAtMost(ordered[i].name, ordered[j].name)
  {
    hide Decode, Encode, NormalAll, DictionaryAtMost, TextAtMost, Sort;
    ordered := Sort(NormalAll(arguments));
    EncodingRoundTrip(ordered);
    SortSorted(NormalAll(arguments));
    forall i, j | 0 <= i < j < |ordered|
      ensures if ordered[i].name == ordered[j].name then DictionaryAtMost(ordered[i].value, ordered[j].value)
              else DictionaryAtMost(ordered[i].name, ordered[j].name)
    {
      assert AtMost(ordered[i], ordered[j]);
      TextsInDictionaryOrder(ordered[i].value, ordered[j].value);
      TextsInDictionaryOrder(ordered[i].name, ordered[j].name);
    }
  }
}
