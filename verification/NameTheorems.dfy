/** What usable names look like: their characters, their suffixes, and the names that extra bytes cannot have. */
module NameTheorems {
  import opened Bytes
  import opened ExtraByteNames
  import CacheKey
  import opened PointChunks

  const LETTERS := "ABCDEFGHIJKLMNOPQRSTUVWXYZ"
  const SMALL_LETTERS := "abcdefghijklmnopqrstuvwxyz"
  const DIGITS := "0123456789"

  predicate OneOf(text: string, c: byte) { c in Ascii(text) }

  predicate IsPlain(c: byte) { OneOf(LETTERS, c) || OneOf(SMALL_LETTERS, c) || OneOf(DIGITS, c) || OneOf("_", c) }

  lemma InRange(text: string, first: byte, c: byte)
    requires first as int + |text| <= 256 && forall i :: 0 <= i < |text| ==> text[i] as int == first + i
    ensures OneOf(text, c) <==> first <= c < first + |text|
  {
    if first <= c < first + |text| {
      assert Ascii(text)[c - first] == c;
    }
  }

  lemma DigitsAre(c: byte)
    ensures IsDigit(c) <==> OneOf(DIGITS, c)
  {
    InRange(DIGITS, 48, c);
  }

  lemma PlainCharacters(c: byte)
    ensures IsAlphaNumeric(c) || c == UNDERSCORE <==> IsPlain(c)
  {
    InRange(LETTERS, 65, c);
    InRange(SMALL_LETTERS, 97, c);
    InRange(DIGITS, 48, c);
    InRange("_", 95, c);
  }

  /** A name is an identifier exactly when it is not empty, has only letters, digits and underscores, and no digit in
      front. */
  lemma IdentifierExactly(name: Name)
    ensures IsIdentifier(name) <==> name != [] && !OneOf(DIGITS, name[0]) && forall c :: c in name ==> IsPlain(c)
  {
    hide OneOf, IsPlain, IsAlphaNumeric, IsDigit;
    forall c: byte ensures (IsAlphaNumeric(c) || c == UNDERSCORE <==> IsPlain(c)) && (IsDigit(c) <==> OneOf(DIGITS, c)) {
      PlainCharacters(c);
      DigitsAre(c);
    }
  }

  /** Making a name an identifier puts an underscore for every other character, and one in front of a digit in front. */
  lemma NormalNameExactly(name: Name)
    ensures name == [] ==> NormalName(name) == Ascii("extra")
    ensures name != [] ==>
      var r, shift := NormalName(name), if OneOf(DIGITS, name[0]) then 1 else 0;
      && |r| == shift + |name| && (shift == 1 ==> [r[0]] == Ascii("_"))
      && forall i :: 0 <= i < |name| ==> [r[shift + i]] == if IsPlain(name[i]) then [name[i]] else Ascii("_")
  {
    hide OneOf, IsPlain, IsAlphaNumeric, IsDigit;
    forall c: byte
      ensures (IsAlphaNumeric(c) || c == UNDERSCORE <==> IsPlain(c)) && (IsDigit(c) <==> OneOf(DIGITS, c))
      ensures IsDigit(c) ==> IsAlphaNumeric(c)
      ensures !IsDigit(UNDERSCORE)
    {
      PlainCharacters(c);
      DigitsAre(c);
      DigitsArePlain(c);
    }
  }

  lemma DigitsArePlain(c: byte)
    ensures (IsDigit(c) ==> IsAlphaNumeric(c)) && !IsDigit(UNDERSCORE)
  {
  }

  /** The names that are tried: the name itself, and then with an underscore and the numbers from two on, in decimal. */
  lemma CandidateExactly(base: Name, k: nat)
    ensures Candidate(base, 0) == base
    ensures k > 0 ==>
      var c := Candidate(base, k);
      && |c| > |base| + 1 && c[..|base| + 1] == base + Ascii("_")
      && var digits := c[|base| + 1..];
         (forall d :: d in digits ==> IsDigit(d)) && digits[0] != '0' as int && CacheKey.Number(digits) == k + 1
  {
    CacheKey.NumberOfDecimal(k + 1);
    NoZeroInFront(k + 1);
    if k > 0 {
      assert Candidate(base, k)[|base| + 1..] == Decimal(k + 1);
    }
  }

  lemma {:induction false} NoZeroInFront(n: nat)
    requires n > 0
    ensures Decimal(n)[0] != '0' as int
  {
    if n >= 10 {
      NoZeroInFront(n / 10);
    }
  }

  /** No extra bytes can have the name of a listed column, of the positions, or of the file of waveforms; all others can
      be had. */
  lemma ReservedExactly(name: Name)
    ensures name in RESERVED <==>
      name == Ascii("xyz") || name == Ascii("waveformDataFile") || exists j :: 0 <= j < |LISTED| && IsListedAs(name, j)
  {
    hide Ascii, Tag;
    if name in RESERVED {
      if name != Ascii("xyz") && name != Ascii("waveformDataFile") {
        FirstListedNames();
        LastListedNames();
        var j :| 0 <= j < |LISTED| && name == Ascii(LISTED[j].0);
        assert IsListedAs(name, j);
      }
    } else {
      forall j | 0 <= j < |LISTED| ensures !IsListedAs(name, j) {
        ListedKind(j);
      }
    }
  }

  predicate IsListedAs(name: Name, j: int)
    requires 0 <= j < |LISTED|
  {
    name == Ascii(LISTED[j].0)
  }
}
