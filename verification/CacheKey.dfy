/** Cache keys: arguments are brought into one form, whatever their order and spelling, and written down so that nothing
    is confused. */
module CacheKey {
  import opened Options
  import opened Bytes
  import opened ExtraByteNames

  type Text = seq<byte>

  datatype Argument = Argument(name: Text, value: Text)

  // ----- Spelling

  predicate IsBlank(c: byte) { c == ' ' as int || c == '\t' as int || c == '\r' as int || c == '\n' as int }

  function TrimLeft(s: Text): Text
  {
    if s != [] && IsBlank(s[0]) then TrimLeft(s[1..]) else s
  }

  function TrimRight(s: Text): Text
  {
    if s != [] && IsBlank(s[|s| - 1]) then TrimRight(s[..|s| - 1]) else s
  }

  function Trim(s: Text): Text { TrimRight(TrimLeft(s)) }

  function LowerChar(c: byte): byte
  {
    if 'A' as int <= c <= 'Z' as int then c + 32 else c
  }

  function Lower(s: Text): (r: Text)
    ensures |r| == |s|
  {
    seq(|s|, i requires 0 <= i < |s| => LowerChar(s[i]))
  }

  function NormalizeName(s: Text): Text { Lower(Trim(s)) }

  function Normal(a: Argument): Argument { Argument(NormalizeName(a.name), Trim(a.value)) }

  function NormalAll(arguments: seq<Argument>): (r: seq<Argument>)
    ensures |r| == |arguments|
  {
    seq(|arguments|, i requires 0 <= i < |arguments| => Normal(arguments[i]))
  }

  // ----- Order

  predicate TextAtMost(a: Text, b: Text)
  {
    a == [] || (b != [] && (a[0] < b[0] || (a[0] == b[0] && TextAtMost(a[1..], b[1..]))))
  }

  predicate AtMost(a: Argument, b: Argument)
  {
    if a.name == b.name then TextAtMost(a.value, b.value) else TextAtMost(a.name, b.name)
  }

  lemma {:induction false} TextOrder(a: Text, b: Text, c: Text)
    ensures TextAtMost(a, b) || TextAtMost(b, a)
    ensures TextAtMost(a, b) && TextAtMost(b, a) ==> a == b
    ensures TextAtMost(a, b) && TextAtMost(b, c) ==> TextAtMost(a, c)
  {
    if a != [] && b != [] {
      TextOrder(a[1..], b[1..], if c == [] then [] else c[1..]);
      assert a == [a[0]] + a[1..] && b == [b[0]] + b[1..];
    }
  }

  lemma Order(a: Argument, b: Argument, c: Argument)
    ensures AtMost(a, b) || AtMost(b, a)
    ensures AtMost(a, b) && AtMost(b, a) ==> a == b
    ensures AtMost(a, b) && AtMost(b, c) ==> AtMost(a, c)
  {
    hide TextAtMost;
    TextOrder(a.name, b.name, c.name);
    TextOrder(b.name, c.name, a.name);
    TextOrder(a.value, b.value, c.value);
  }

  ghost predicate Sorted(s: seq<Argument>)
  {
    forall i, j :: 0 <= i < j < |s| ==> AtMost(s[i], s[j])
  }

  function Insert(x: Argument, s: seq<Argument>): (r: seq<Argument>)
    ensures multiset(r) == multiset(s) + multiset{x}
  {
    if s == [] || AtMost(s[|s| - 1], x) then s + [x]
    else
      assert s == s[..|s| - 1] + [s[|s| - 1]];
      Insert(x, s[..|s| - 1]) + [s[|s| - 1]]
  }

  function Sort(s: seq<Argument>): (r: seq<Argument>)
    ensures multiset(r) == multiset(s)
  {
    if s == [] then []
    else
      assert s == s[..|s| - 1] + [s[|s| - 1]];
      Insert(s[|s| - 1], Sort(s[..|s| - 1]))
  }

  lemma {:induction false} InsertSorted(x: Argument, s: seq<Argument>)
    requires Sorted(s)
    ensures Sorted(Insert(x, s))
  {
    hide AtMost;
    if s != [] {
      var m := |s| - 1;
      if AtMost(s[m], x) {
        forall i | 0 <= i < |s| ensures AtMost(s[i], x) {
          Order(s[i], s[m], x);
        }
      } else {
        InsertSorted(x, s[..m]);
        Order(x, s[m], x);
        var r := Insert(x, s[..m]);
        forall i | 0 <= i < |r| ensures AtMost(r[i], s[m]) {
          InsertMember(x, s[..m], i);
        }
      }
    }
  }

  lemma InsertMember(x: Argument, s: seq<Argument>, i: nat)
    requires i < |Insert(x, s)|
    ensures Insert(x, s)[i] == x || Insert(x, s)[i] in s
  {
    hide Insert;
    var r := Insert(x, s);
    assert r[i] in multiset(r);
  }

  lemma {:induction false} SortSorted(s: seq<Argument>)
    ensures Sorted(Sort(s))
  {
    if s != [] {
      SortSorted(s[..|s| - 1]);
      InsertSorted(s[|s| - 1], Sort(s[..|s| - 1]));
    }
  }

  /** Arguments have one sorted order only. */
  lemma {:induction false} SortedOnce(a: seq<Argument>, b: seq<Argument>)
    requires Sorted(a) && Sorted(b) && multiset(a) == multiset(b)
    ensures a == b
  {
    hide AtMost;
    SameLength(a, b);
    if a != [] {
      var m := |a| - 1;
      LastIsGreatest(a, b);
      LastIsGreatest(b, a);
      Order(a[m], b[m], a[m]);
      WithoutLast(a);
      WithoutLast(b);
      SortedOnce(a[..m], b[..m]);
      assert a == a[..m] + [a[m]] && b == b[..m] + [b[m]];
    }
  }

  lemma WithoutLast(s: seq<Argument>)
    requires s != []
    ensures multiset(s[..|s| - 1]) == multiset(s) - multiset{s[|s| - 1]}
  {
    assert s == s[..|s| - 1] + [s[|s| - 1]];
  }

  lemma SameLength(a: seq<Argument>, b: seq<Argument>)
    requires multiset(a) == multiset(b)
    ensures |a| == |b|
  {
    assert |multiset(a)| == |a| && |multiset(b)| == |b|;
  }

  lemma LastIsGreatest(a: seq<Argument>, b: seq<Argument>)
    requires Sorted(a) && multiset(a) == multiset(b) && |a| == |b| > 0
    ensures AtMost(b[|b| - 1], a[|a| - 1])
  {
    hide AtMost;
    var last := b[|b| - 1];
    assert last in multiset(b);
    assert last in multiset(a);
    var i :| 0 <= i < |a| && a[i] == last;
    Order(last, last, last);
  }

  // ----- Writing down

  const COLON: byte := ':' as int
  const SEMICOLON: byte := ';' as int

  function WithLength(s: Text): Text { Decimal(|s|) + [COLON] + s }

  function Written(a: Argument): Text { WithLength(a.name) + WithLength(a.value) + [SEMICOLON] }

  function Encode(arguments: seq<Argument>): Text
  {
    if arguments == [] then [] else Encode(arguments[..|arguments| - 1]) + Written(arguments[|arguments| - 1])
  }

  // ----- Reading back

  function Number(digits: Text): nat
    requires forall c :: c in digits ==> IsDigit(c)
  {
    if digits == [] then 0
    else
      var last := digits[|digits| - 1];
      assert IsDigit(last);
      10 * Number(digits[..|digits| - 1]) + (last as int - '0' as int)
  }

  /** The digits in front. */
  function Digits(s: Text): (r: Text)
    ensures r <= s && (forall c :: c in r ==> IsDigit(c))
    ensures |r| < |s| ==> !IsDigit(s[|r|])
  {
    if s == [] || !IsDigit(s[0]) then [] else [s[0]] + Digits(s[1..])
  }

  /** A sized text in front, and what follows it. */
  function ReadSized(s: Text): Option<(Text, Text)>
  {
    var digits := Digits(s);
    var start, size := |digits| + 1, Number(digits);
    if digits == [] || |digits| == |s| || s[|digits|] != COLON || start + size > |s| then None
    else Some((s[start..start + size], s[start + size..]))
  }

  function ReadArgument(s: Text): Option<(Argument, Text)>
  {
    match ReadSized(s)
    case None => None
    case Some((name, rest)) =>
      match ReadSized(rest)
      case None => None
      case Some((value, end)) => if end == [] || end[0] != SEMICOLON then None else Some((Argument(name, value), end[1..]))
  }

  function Decode(s: Text): Option<seq<Argument>>
    decreases |s|
  {
    if s == [] then Some([])
    else
      match ReadArgument(s)
      case None => None
      case Some((a, rest)) =>
        if |rest| >= |s| then None
        else match Decode(rest) case None => None case Some(more) => Some([a] + more)
  }

  lemma {:induction false} NumberOfDecimal(n: nat)
    ensures Number(Decimal(n)) == n
  {
    var d := Decimal(n);
    if n >= 10 {
      NumberOfDecimal(n / 10);
      assert d[..|d| - 1] == Decimal(n / 10);
    } else {
      assert d[..0] == [];
    }
  }

  lemma {:induction false} DigitsInFront(digits: Text, rest: Text)
    requires (forall c :: c in digits ==> IsDigit(c)) && (rest == [] || !IsDigit(rest[0]))
    ensures Digits(digits + rest) == digits
    decreases digits
  {
    if digits == [] {
      assert digits + rest == rest;
    } else {
      assert (digits + rest)[1..] == digits[1..] + rest;
      DigitsInFront(digits[1..], rest);
    }
  }

  lemma SizedRoundTrip(s: Text, rest: Text)
    ensures ReadSized(WithLength(s) + rest) == Some((s, rest))
  {
    var d := Decimal(|s|);
    var after := [COLON] + s + rest;
    assert WithLength(s) + rest == d + after;
    DigitsInFront(d, after);
    NumberOfDecimal(|s|);
    hide Decimal, Number, Digits;
    var start := |d| + 1;
    assert (d + after)[start..start + |s|] == s;
    assert (d + after)[start + |s|..] == rest;
  }

  lemma ArgumentRoundTrip(a: Argument, rest: Text)
    ensures ReadArgument(Written(a) + rest) == Some((a, rest))
  {
    hide ReadSized, WithLength;
    SizedRoundTrip(a.value, [SEMICOLON] + rest);
    SizedRoundTrip(a.name, WithLength(a.value) + ([SEMICOLON] + rest));
    assert Written(a) + rest == WithLength(a.name) + (WithLength(a.value) + ([SEMICOLON] + rest));
    assert ([SEMICOLON] + rest)[1..] == rest;
  }

  lemma {:induction false} EncodeFirst(arguments: seq<Argument>)
    requires arguments != []
    ensures Encode(arguments) == Written(arguments[0]) + Encode(arguments[1..])
  {
    hide Written;
    var m := |arguments| - 1;
    if m > 0 {
      EncodeFirst(arguments[..m]);
      assert arguments[..m][1..] == arguments[1..][..m - 1];
    } else {
      assert arguments[..0] == [];
    }
  }

  /** What was written down can be read back: the encoding confuses nothing. */
  lemma {:induction false} EncodingRoundTrip(arguments: seq<Argument>)
    ensures Decode(Encode(arguments)) == Some(arguments)
  {
    if arguments != [] {
      EncodeFirst(arguments);
      EncodingRoundTrip(arguments[1..]);
      ArgumentRoundTrip(arguments[0], Encode(arguments[1..]));
      hide ReadArgument, Encode;
      assert |Written(arguments[0])| > 0;
      assert arguments == [arguments[0]] + arguments[1..];
    }
  }

  // ----- Keys

  function NormalForm(arguments: seq<Argument>): Text { Encode(Sort(NormalAll(arguments))) }

  method NormalizeCacheArguments(arguments: seq<Argument>) returns (result: Text)
    ensures result == NormalForm(arguments)
  {
    hide Written, Normal, AtMost;
    var normalized := [];
    var k := 0;
    while k < |arguments|
      invariant 0 <= k == |normalized| <= |arguments| && normalized == NormalAll(arguments)[..k]
    {
      normalized := normalized + [Argument(NormalizeName(arguments[k].name), Trim(arguments[k].value))];
      assert normalized[k] == Normal(arguments[k]) by { NormalOf(arguments[k]); }
      k := k + 1;
    }
    assert NormalAll(arguments)[..k] == NormalAll(arguments);
    normalized := Sort(normalized);
    result := [];
    k := 0;
    assert normalized[..0] == [];
    while k < |normalized|
      invariant 0 <= k <= |normalized| && result == Encode(normalized[..k])
    {
      result := result + Written(normalized[k]);
      assert normalized[..k + 1][..k] == normalized[..k];
      k := k + 1;
    }
    assert normalized[..k] == normalized;
  }

  lemma NormalOf(a: Argument)
    ensures Normal(a) == Argument(NormalizeName(a.name), Trim(a.value))
  {
  }

  /** Two lists of arguments have one normal form exactly when they are the same arguments, up to spelling and order. */
  lemma NormalFormsAgree(a: seq<Argument>, b: seq<Argument>)
    ensures NormalForm(a) == NormalForm(b) <==> multiset(NormalAll(a)) == multiset(NormalAll(b))
  {
    hide Encode, Sort, NormalAll, Decode;
    SortSorted(NormalAll(a));
    SortSorted(NormalAll(b));
    if multiset(NormalAll(a)) == multiset(NormalAll(b)) {
      SortedOnce(Sort(NormalAll(a)), Sort(NormalAll(b)));
    }
    EncodingRoundTrip(Sort(NormalAll(a)));
    EncodingRoundTrip(Sort(NormalAll(b)));
  }
}
