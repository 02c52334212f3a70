/** Names for extra bytes: valid, distinct, and different from the names of the built-in attributes. */
module ExtraByteNames {
  import opened Seqs
  import opened Bytes

  type Name = seq<byte>

  function Ascii(text: string): Name
  {
    seq(|text|, i requires 0 <= i < |text| => (text[i] as int) % 256)
  }

  predicate IsAlphaNumeric(c: byte)
  {
    || 'A' as int <= c <= 'Z' as int
    || 'a' as int <= c <= 'z' as int
    || IsDigit(c)
  }

  predicate IsDigit(c: byte) { '0' as int <= c <= '9' as int }

  const UNDERSCORE: byte := '_' as int

  predicate IsIdentifier(name: Name)
  {
    name != [] && !IsDigit(name[0]) && forall c :: c in name ==> IsAlphaNumeric(c) || c == UNDERSCORE
  }

  const RESERVED: set<Name> := {
    Ascii("xyz"), Ascii("intensity"), Ascii("returnNumber"), Ascii("numberOfReturns"), Ascii("classification"),
    Ascii("classificationFlags"), Ascii("scannerChannel"), Ascii("scanDirectionFlag"), Ascii("edgeOfFlightLine"),
    Ascii("userData"), Ascii("scanAngle"), Ascii("pointSourceId"), Ascii("red"), Ascii("green"), Ascii("blue"),
    Ascii("nir"), Ascii("gpsTime"), Ascii("waveformDescriptorIndex"), Ascii("waveformDataOffset"),
    Ascii("waveformPacketSize"), Ascii("returnPointWaveformLocation"), Ascii("waveformXt"), Ascii("waveformYt"),
    Ascii("waveformZt"), Ascii("waveformDataExternal"), Ascii("waveformDataFile") }

  // ----- One name

  function Replaced(name: Name): (r: Name)
    ensures |r| == |name|
  {
    seq(|name|, i requires 0 <= i < |name| =>
      if IsAlphaNumeric(name[i]) || name[i] == UNDERSCORE then name[i] else UNDERSCORE)
  }

  function NormalName(name: Name): Name
  {
    var r := Replaced(name);
    if r == [] then Ascii("extra") else if IsDigit(r[0]) then [UNDERSCORE] + r else r
  }

  method NormalizeExtraByteName(name: Name) returns (result: Name)
    ensures result == NormalName(name)
  {
    result := [];
    var k := 0;
    while k < |name|
      invariant 0 <= k <= |name| && result == Replaced(name)[..k]
    {
      result := result + [if IsAlphaNumeric(name[k]) || name[k] == UNDERSCORE then name[k] else UNDERSCORE];
      k := k + 1;
    }
    assert Replaced(name)[..k] == Replaced(name);
    if result == [] {
      return Ascii("extra");
    }
    if IsDigit(result[0]) {
      result := [UNDERSCORE] + result;
    }
  }

  lemma NormalNameIsIdentifier(name: Name)
    ensures IsIdentifier(NormalName(name))
  {
    var r := Replaced(name);
    assert forall i :: 0 <= i < |r| ==> IsAlphaNumeric(r[i]) || r[i] == UNDERSCORE;
  }

  lemma IdentifierUnchanged(name: Name)
    requires IsIdentifier(name)
    ensures NormalName(name) == name
  {
    forall i | 0 <= i < |name| ensures Replaced(name)[i] == name[i] {
      assert name[i] in name;
    }
  }

  // ----- Suffixes

  function Decimal(n: nat): (r: Name)
    ensures r != [] && forall c :: c in r ==> IsDigit(c)
    ensures n >= 10 ==> |r| >= 2
  {
    if n < 10 then ['0' as int + n] else Decimal(n / 10) + ['0' as int + n % 10]
  }

  lemma {:induction false} DecimalInjective(a: nat, b: nat)
    requires Decimal(a) == Decimal(b)
    ensures a == b
  {
    var x, y := Decimal(a), Decimal(b);
    assert x[|x| - 1] == '0' as int + a % 10 && y[|y| - 1] == '0' as int + b % 10;
    if a >= 10 && b >= 10 {
      assert x[..|x| - 1] == Decimal(a / 10) && y[..|y| - 1] == Decimal(b / 10);
      DecimalInjective(a / 10, b / 10);
    }
  }

  /** The `k`th name that is tried for a base name. */
  function Candidate(base: Name, k: nat): Name
  {
    if k == 0 then base else base + [UNDERSCORE] + Decimal(k + 1)
  }

  lemma CandidateInjective(base: Name, j: nat, k: nat)
    requires Candidate(base, j) == Candidate(base, k)
    ensures j == k
  {
    assert j > 0 ==> |Candidate(base, j)| > |base|;
    assert k > 0 ==> |Candidate(base, k)| > |base|;
    if j > 0 && k > 0 {
      assert Candidate(base, j)[|base| + 1..] == Decimal(j + 1);
      assert Candidate(base, k)[|base| + 1..] == Decimal(k + 1);
      DecimalInjective(j + 1, k + 1);
    }
  }

  lemma CandidateIsIdentifier(base: Name, k: nat)
    requires IsIdentifier(base)
    ensures IsIdentifier(Candidate(base, k))
  {
    if k > 0 {
      var c, d := Candidate(base, k), Decimal(k + 1);
      assert c[0] == base[0];
      assert forall x :: x in c ==> x in base || x == UNDERSCORE || x in d;
    }
  }

  ghost function Tried(base: Name, k: nat): set<Name>
  {
    if k == 0 then {} else Tried(base, k - 1) + {Candidate(base, k - 1)}
  }

  lemma {:induction false} NotTriedYet(base: Name, k: nat, n: nat)
    requires k <= n
    ensures Candidate(base, n) !in Tried(base, k)
  {
    if k > 0 {
      NotTriedYet(base, k - 1, n);
      if Candidate(base, n) == Candidate(base, k - 1) {
        CandidateInjective(base, n, k - 1);
      }
    }
  }

  /** The names tried so far that were taken are as many as the tries. */
  lemma {:induction false} TriesAreBounded(base: Name, used: set<Name>, k: nat)
    requires forall j :: 0 <= j < k ==> Candidate(base, j) in used
    ensures Tried(base, k) <= used && |Tried(base, k)| == k <= |used|
  {
    if k > 0 {
      TriesAreBounded(base, used, k - 1);
      NotTriedYet(base, k - 1, k - 1);
    }
    SubsetSize(Tried(base, k), used);
  }

  /** `k` is the number of the first candidate that is not taken. */
  ghost predicate IsFirstFree(base: Name, used: set<Name>, k: nat)
  {
    Candidate(base, k) !in used && forall j :: 0 <= j < k ==> Candidate(base, j) in used
  }

  // ----- All names

  function NameSet(names: seq<Name>): set<Name>
  {
    set n | n in names
  }

  /** The result of making `names` usable: each takes its first candidate that is neither reserved nor taken by an
      earlier name. */
  ghost predicate Normalized(names: seq<Name>, result: seq<Name>)
  {
    && |result| == |names|
    && forall i :: 0 <= i < |names| ==> TakesFirstFree(names[i], RESERVED + NameSet(result[..i]), result[i])
  }

  ghost predicate TakesFirstFree(name: Name, used: set<Name>, result: Name)
  {
    exists k: nat :: IsFirstFree(NormalName(name), used, k) && result == Candidate(NormalName(name), k)
  }

  /** Each search ends within as many tries as there are names in use. */
  method NormalizeExtraByteNames(names: seq<Name>) returns (result: seq<Name>)
    ensures Normalized(names, result)
  {
    hide RESERVED, NormalName, Candidate;
    var usedNames := RESERVED;
    result := [];
    var i := 0;
    while i < |names|
      invariant 0 <= i == |result| <= |names|
      invariant usedNames == RESERVED + NameSet(result)
      invariant forall j :: 0 <= j < i ==> TakesFirstFree(names[j], RESERVED + NameSet(result[..j]), result[j])
    {
      var baseName := NormalizeExtraByteName(names[i]);
      var normalizedName := FirstFreeName(baseName, usedNames);
      usedNames := usedNames + {normalizedName};
      ghost var before := result;
      result := result + [normalizedName];
      assert forall j :: 0 <= j <= i ==> result[..j] == before[..j];
      assert NameSet(result) == NameSet(before) + {normalizedName};
      assert before[..i] == before;
      i := i + 1;
    }
  }

  method FirstFreeName(baseName: Name, usedNames: set<Name>) returns (normalizedName: Name)
    ensures exists k: nat :: IsFirstFree(baseName, usedNames, k) && normalizedName == Candidate(baseName, k)
  {
    normalizedName := baseName;
    var suffix := 2;
    while normalizedName in usedNames
      invariant suffix >= 2 && normalizedName == Candidate(baseName, suffix - 2)
      invariant forall j :: 0 <= j < suffix - 2 ==> Candidate(baseName, j) in usedNames
      decreases |usedNames| + 2 - suffix
    {
      TriesAreBounded(baseName, usedNames, suffix - 1);
      normalizedName := baseName + [UNDERSCORE] + Decimal(suffix);
      suffix := suffix + 1;
    }
    assert IsFirstFree(baseName, usedNames, suffix - 2);
  }

  /** Names that can be given to columns. */
  ghost predicate Usable(names: seq<Name>)
  {
    && Distinct(names)
    && forall n :: n in names ==> IsIdentifier(n) && n !in RESERVED
  }

  lemma NormalizedUsable(names: seq<Name>, result: seq<Name>)
    requires Normalized(names, result)
    ensures Usable(result)
  {
    hide RESERVED, NormalName, Candidate, IsIdentifier;
    forall i | 0 <= i < |result|
      ensures IsIdentifier(result[i]) && result[i] !in RESERVED
      ensures forall j :: 0 <= j < i ==> result[i] != result[j]
    {
      assert TakesFirstFree(names[i], RESERVED + NameSet(result[..i]), result[i]);
      var k: nat :| IsFirstFree(NormalName(names[i]), RESERVED + NameSet(result[..i]), k)
        && result[i] == Candidate(NormalName(names[i]), k);
      NormalNameIsIdentifier(names[i]);
      CandidateIsIdentifier(NormalName(names[i]), k);
      forall j | 0 <= j < i ensures result[i] != result[j] {
        assert result[..i][j] == result[j];
        assert result[j] in NameSet(result[..i]);
      }
    }
  }

  /** There is one result only. */
  lemma {:induction false} NormalizedOnce(names: seq<Name>, a: seq<Name>, b: seq<Name>)
    requires Normalized(names, a) && Normalized(names, b)
    ensures a == b
  {
    hide RESERVED, NormalName, Candidate;
    var i := 0;
    while i < |names|
      invariant 0 <= i <= |names| && a[..i] == b[..i]
    {
      var base, used := NormalName(names[i]), RESERVED + NameSet(a[..i]);
      assert TakesFirstFree(names[i], used, a[i]) && TakesFirstFree(names[i], used, b[i]);
      var j: nat :| IsFirstFree(base, used, j) && a[i] == Candidate(base, j);
      var k: nat :| IsFirstFree(base, used, k) && b[i] == Candidate(base, k);
      assert j == k;
      assert a[..i + 1] == a[..i] + [a[i]] && b[..i + 1] == b[..i] + [b[i]];
      i := i + 1;
    }
    assert a[..i] == a && b[..i] == b;
  }

  /** Usable names are kept as they are; so normalizing twice is normalizing once. */
  lemma UsableKept(names: seq<Name>)
    requires Usable(names)
    ensures Normalized(names, names)
  {
    hide RESERVED, NormalName;
    forall i | 0 <= i < |names|
      ensures TakesFirstFree(names[i], RESERVED + NameSet(names[..i]), names[i])
    {
      IdentifierUnchanged(names[i]);
      assert names[i] in names;
      assert IsFirstFree(NormalName(names[i]), RESERVED + NameSet(names[..i]), 0);
    }
  }

  ghost function FirstFree(base: Name, used: set<Name>, k: nat): (r: nat)
    requires forall j :: 0 <= j < k ==> Candidate(base, j) in used
    ensures IsFirstFree(base, used, r)
    decreases |used| + 1 - k
  {
    TriesAreBounded(base, used, k);
    if Candidate(base, k) !in used then k
    else
      TriesAreBounded(base, used, k + 1);
      FirstFree(base, used, k + 1)
  }

  /** The one result of making `names` usable. */
  ghost function NormalNames(names: seq<Name>): (r: seq<Name>)
    ensures Normalized(names, r)
    decreases |names|
  {
    if names == [] then []
    else
      var n := |names| - 1;
      var before, base := NormalNames(names[..n]), NormalName(names[n]);
      var r := before + [Candidate(base, FirstFree(base, RESERVED + NameSet(before), 0))];
      NormalizedOneMore(names, before, r);
      r
  }

  lemma NormalizedOneMore(names: seq<Name>, before: seq<Name>, r: seq<Name>)
    requires names != [] && Normalized(names[..|names| - 1], before)
    requires |r| == |names| && before == r[..|names| - 1]
    requires TakesFirstFree(names[|names| - 1], RESERVED + NameSet(before), r[|names| - 1])
    ensures Normalized(names, r)
  {
    hide TakesFirstFree, RESERVED, NameSet;
    var n := |names| - 1;
    forall i | 0 <= i < |names| ensures TakesFirstFree(names[i], RESERVED + NameSet(r[..i]), r[i]) {
      if i < n {
        assert r[..i] == before[..i];
        assert TakesFirstFree(names[..n][i], RESERVED + NameSet(before[..i]), before[i]);
      }
    }
  }

  lemma NormalizingIsIdempotent(names: seq<Name>, once: seq<Name>, twice: seq<Name>)
    requires Normalized(names, once) && Normalized(once, twice)
    ensures twice == once
  {
    NormalizedUsable(names, once);
    UsableKept(once);
    NormalizedOnce(once, once, twice);
  }

  /** A name gets no suffix exactly when its normal form is neither reserved nor taken before it. */
  lemma NoSuffixWhenFree(names: seq<Name>, result: seq<Name>, i: nat)
    requires Normalized(names, result) && i < |names|
    ensures result[i] == NormalName(names[i]) <==>
      NormalName(names[i]) !in RESERVED && NormalName(names[i]) !in result[..i]
  {
    hide RESERVED, NormalName;
    var base, used := NormalName(names[i]), RESERVED + NameSet(result[..i]);
    assert TakesFirstFree(names[i], used, result[i]);
    var k: nat :| IsFirstFree(base, used, k) && result[i] == Candidate(base, k);
    if result[i] == base {
      CandidateInjective(base, k, 0);
    }
    assert Candidate(base, 0) == base;
  }
}
