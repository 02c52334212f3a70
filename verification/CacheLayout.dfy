/** The two-level layout of the generated cache: what was asked for chooses a directory, what the source contains chooses
    the entry in it. */
module CacheLayout {
  import opened Options
  import opened Bytes
  import opened ExtraByteNames
  import opened CacheKey

  datatype SourceIdentity = SourceIdentity(identifier: Text, canonicalPath: Text, sizeBytes: nat, modifiedTime: int,
                                           validationToken: Text, contentIdentity: Text)
  {
    predicate IsValid()
    {
      (identifier != [] || canonicalPath != []) && (validationToken != [] || contentIdentity != [])
    }
  }

  datatype Descriptor = Descriptor(source: SourceIdentity, pluginVersion: Text, parserVersion: Text, openUsdVersion: Text,
                                   coordinateTransform: seq<Argument>, attributes: seq<Argument>,
                                   tileAndLod: seq<Argument>, downsampling: seq<Argument>, sourceDerived: seq<Argument>)
  {
    predicate IsValid()
    {
      && source.IsValid() && pluginVersion != [] && parserVersion != [] && openUsdVersion != []
      && Named(coordinateTransform) && Named(attributes) && Named(tileAndLod) && Named(downsampling) && Named(sourceDerived)
    }
  }

  /** No argument has a blank name. */
  predicate Named(arguments: seq<Argument>)
  {
    forall a :: a in arguments ==> exists c :: c in a.name && !IsBlank(c)
  }

  function SignedDecimal(i: int): Text
  {
    if i >= 0 then Decimal(i) else ['-' as int] + Decimal(-i)
  }

  function SourceValidation(d: Descriptor): Text
  {
    if d.source.validationToken == [] then d.source.contentIdentity else d.source.validationToken
  }

  function Prefixed(prefix: Text, values: seq<Argument>): (r: seq<Argument>)
    ensures |r| == |values|
  {
    seq(|values|, i requires 0 <= i < |values| => Argument(prefix + values[i].name, values[i].value))
  }

  const TRANSFORM := Ascii("transform.")
  const SOURCE_DERIVED := Ascii("source-derived.")

  /** What was asked for. */
  function MakeGenerationArguments(d: Descriptor): seq<Argument>
  {
    [Argument(Ascii("source.identifier"), if d.source.identifier == [] then d.source.canonicalPath else d.source.identifier),
     Argument(Ascii("plugin.version"), d.pluginVersion),
     Argument(Ascii("parser.version"), d.parserVersion),
     Argument(Ascii("openusd.version"), d.openUsdVersion)]
    + Prefixed(Ascii("attributes."), d.attributes)
    + Prefixed(Ascii("tile-lod."), d.tileAndLod)
    + Prefixed(Ascii("downsampling."), d.downsampling)
  }

  /** What the source contains. */
  function MakeIdentityArguments(d: Descriptor): seq<Argument>
  {
    [Argument(Ascii("source.size"), Decimal(d.source.sizeBytes)),
     Argument(Ascii("source.modified"), SignedDecimal(d.source.modifiedTime)),
     Argument(Ascii("source.validation"), SourceValidation(d))]
    + Prefixed(TRANSFORM, d.coordinateTransform)
    + Prefixed(SOURCE_DERIVED, d.sourceDerived)
  }

  function MakeCacheArguments(d: Descriptor): seq<Argument>
  {
    MakeGenerationArguments(d) + MakeIdentityArguments(d)
  }

  // ----- The two halves never mix

  /** A normalized name that only the second half has. */
  predicate IsIdentityName(name: Text)
  {
    || name == Lower(Ascii("source.size")) || name == Lower(Ascii("source.modified"))
    || name == Lower(Ascii("source.validation"))
    || Lower(TRANSFORM) <= name || Lower(SOURCE_DERIVED) <= name
  }

  predicate Solid(s: Text) { s != [] && !IsBlank(s[0]) && !IsBlank(s[|s| - 1]) }

  lemma {:induction false} TrimRightKeeps(front: Text, rest: Text)
    requires Solid(front)
    ensures front <= TrimRight(front + rest)
    decreases rest
  {
    if rest == [] {
      assert front + rest == front;
    } else if IsBlank(rest[|rest| - 1]) {
      assert (front + rest)[..|front + rest| - 1] == front + rest[..|rest| - 1];
      TrimRightKeeps(front, rest[..|rest| - 1]);
    }
  }

  /** Normalizing a name leaves a solid beginning in its place. */
  lemma NormalizedBeginning(front: Text, rest: Text)
    requires Solid(front)
    ensures Lower(front) <= NormalizeName(front + rest)
  {
    TrimRightKeeps(front, rest);
    assert TrimLeft(front + rest) == front + rest;
    var t := Trim(front + rest);
    assert front == t[..|front|];
    assert Lower(front) == Lower(t)[..|front|];
  }

  lemma NormalizedWhole(name: Text)
    requires Solid(name)
    ensures NormalizeName(name) == Lower(name)
  {
  }

  lemma AsciiAt(text: string, i: nat)
    requires i < |text|
    ensures Lower(Ascii(text))[i] == LowerChar((text[i] as int) % 256)
  {
  }

  lemma IdentityNames(d: Descriptor)
    ensures forall a :: a in NormalAll(MakeIdentityArguments(d)) ==> IsIdentityName(a.name)
  {
    hide NormalizeName, Lower, Trim;
    var arguments := MakeIdentityArguments(d);
    NormalizedWhole(Ascii("source.size"));
    NormalizedWhole(Ascii("source.modified"));
    NormalizedWhole(Ascii("source.validation"));
    forall i | 0 <= i < |arguments| ensures IsIdentityName(NormalizeName(arguments[i].name)) {
      if i >= 3 {
        var n := |d.coordinateTransform|;
        if i < 3 + n {
          NormalizedBeginning(TRANSFORM, d.coordinateTransform[i - 3].name);
        } else {
          NormalizedBeginning(SOURCE_DERIVED, d.sourceDerived[i - 3 - n].name);
        }
      }
    }
  }

  /** A name that begins with one of these does not occur in the second half. */
  lemma NoIdentityName(front: string, name: Text)
    requires Lower(Ascii(front)) <= name
    requires FirstHalf(front)
    ensures !IsIdentityName(name)
  {
    AsciiAt(front, 0);
    AsciiAt(front, 1);
    assert name[0] == Lower(Ascii(front))[0] && name[1] == Lower(Ascii(front))[1];
  }

  lemma IdentifierIsNoIdentityName()
    ensures !IsIdentityName(Lower(Ascii("source.identifier")))
  {
    var name := Lower(Ascii("source.identifier"));
    assert |name| == 17 && name[6] == '.' as int && name[7] == 'i' as int && name[0] == 's' as int;
    assert Lower(Ascii("source.validation"))[7] == 'v' as int;
    assert Lower(SOURCE_DERIVED)[6] == '-' as int;
    assert Lower(TRANSFORM)[0] == 't' as int;
  }

  lemma GenerationNames(d: Descriptor)
    ensures forall a :: a in NormalAll(MakeGenerationArguments(d)) ==> !IsIdentityName(a.name)
  {
    hide NormalizeName, Lower, Trim, IsIdentityName;
    var arguments := MakeGenerationArguments(d);
    NormalizedWhole(Ascii("source.identifier"));
    IdentifierIsNoIdentityName();
    PlainNames("plugin.version");
    PlainNames("parser.version");
    PlainNames("openusd.version");
    forall i | 0 <= i < |arguments| ensures !IsIdentityName(NormalizeName(arguments[i].name)) {
      if i >= 4 {
        var k, n, m := i - 4, |d.attributes|, |d.tileAndLod|;
        if k < n {
          PrefixedNames("attributes.", d.attributes[k].name);
        } else if k < n + m {
          PrefixedNames("tile-lod.", d.tileAndLod[k - n].name);
        } else {
          PrefixedNames("downsampling.", d.downsampling[k - n - m].name);
        }
      }
    }
  }

  predicate FirstHalf(front: string)
  {
    |front| > 1 && (front[0] == 'a' || front[0] == 'd' || front[0] == 'p' || front[0] == 'o'
                    || (front[0] == 't' && front[1] == 'i'))
  }

  lemma PrefixedNames(front: string, rest: Text)
    requires Solid(Ascii(front)) && FirstHalf(front)
    ensures !IsIdentityName(NormalizeName(Ascii(front) + rest))
  {
    NormalizedBeginning(Ascii(front), rest);
    NoIdentityName(front, NormalizeName(Ascii(front) + rest));
  }

  lemma PlainNames(front: string)
    requires Solid(Ascii(front)) && FirstHalf(front)
    ensures !IsIdentityName(NormalizeName(Ascii(front)))
  {
    PrefixedNames(front, []);
    assert Ascii(front) + [] == Ascii(front);
  }

  lemma MultisetsSplit(a: multiset<Argument>, b: multiset<Argument>, c: multiset<Argument>, d: multiset<Argument>)
    requires a + b == c + d
    requires forall x :: x in a || x in c ==> !IsIdentityName(x.name)
    requires forall x :: x in b || x in d ==> IsIdentityName(x.name)
    ensures a == c && b == d
  {
    hide IsIdentityName;
    forall x ensures a[x] == c[x] && b[x] == d[x] {
      assert (a + b)[x] == (c + d)[x];
      if IsIdentityName(x.name) {
        assert x !in a && x !in c;
      } else {
        assert x !in b && x !in d;
      }
    }
  }

  lemma NormalConcat(a: seq<Argument>, b: seq<Argument>)
    ensures multiset(NormalAll(a + b)) == multiset(NormalAll(a)) + multiset(NormalAll(b))
  {
    hide Normal;
    assert NormalAll(a + b) == NormalAll(a) + NormalAll(b);
  }

  // ----- Keys and directories

  /** The hash of normalized arguments, taken to have no collisions. */
  ghost predicate Injective(hash: Text -> Text)
  {
    forall a, b :: hash(a) == hash(b) ==> a == b
  }

  function KeyOf(hash: Text -> Text, arguments: seq<Argument>): Text { hash(NormalForm(arguments)) }

  /** The flat key of a descriptor; empty for an invalid one. */
  function StableCacheKey(hash: Text -> Text, d: Descriptor): Text
  {
    if d.IsValid() then KeyOf(hash, MakeCacheArguments(d)) else []
  }

  datatype Layout = Layout(generation: Text, entry: Text)

  function TryBuildLayout(hash: Text -> Text, d: Descriptor): Option<Layout>
  {
    if !d.IsValid() then None
    else
      var generationKey, identityKey := KeyOf(hash, MakeGenerationArguments(d)), KeyOf(hash, MakeIdentityArguments(d));
      if generationKey == [] || identityKey == [] then None else Some(Layout(generationKey, identityKey))
  }

  /** Two descriptors share the flat key exactly when they share both levels of the layout. */
  lemma FlatKeyAgrees(hash: Text -> Text, d: Descriptor, e: Descriptor)
    requires Injective(hash) && d.IsValid() && e.IsValid()
    ensures StableCacheKey(hash, d) == StableCacheKey(hash, e) <==>
      && KeyOf(hash, MakeGenerationArguments(d)) == KeyOf(hash, MakeGenerationArguments(e))
      && KeyOf(hash, MakeIdentityArguments(d)) == KeyOf(hash, MakeIdentityArguments(e))
  {
    hide NormalForm, NormalAll, MakeGenerationArguments, MakeIdentityArguments, Descriptor.IsValid, IsIdentityName;
    var gd, ge, id, ie := MakeGenerationArguments(d), MakeGenerationArguments(e), MakeIdentityArguments(d),
      MakeIdentityArguments(e);
    NormalFormsAgree(gd + id, ge + ie);
    NormalFormsAgree(gd, ge);
    NormalFormsAgree(id, ie);
    NormalConcat(gd, id);
    NormalConcat(ge, ie);
    GenerationNames(d);
    GenerationNames(e);
    IdentityNames(d);
    IdentityNames(e);
    if multiset(NormalAll(gd + id)) == multiset(NormalAll(ge + ie)) {
      MultisetsSplit(multiset(NormalAll(gd)), multiset(NormalAll(id)), multiset(NormalAll(ge)), multiset(NormalAll(ie)));
    }
  }

  /** So the entry of the two-level layout is chosen by the flat key. */
  lemma LayoutByFlatKey(hash: Text -> Text, d: Descriptor, e: Descriptor)
    requires Injective(hash) && (forall s :: hash(s) != []) && d.IsValid() && e.IsValid()
    ensures TryBuildLayout(hash, d) == TryBuildLayout(hash, e) <==> StableCacheKey(hash, d) == StableCacheKey(hash, e)
  {
    hide MakeGenerationArguments, MakeIdentityArguments, NormalForm;
    FlatKeyAgrees(hash, d, e);
  }
}
