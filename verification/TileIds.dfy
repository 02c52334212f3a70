/** Tile identities, their order and their ancestors. */
module TileIds {

  datatype TileId = TileId(level: int, x: int, y: int, z: int) {
    predicate IsValid() { level >= 0 }
  }

  const ROOT := TileId(0, 0, 0, 0)

  /** The identity a router returns for a position it cannot place, and the parent of a root node. */
  const NO_TILE := TileId(-1, 0, 0, 0)

  predicate Less(a: TileId, b: TileId)
  {
    if a.level != b.level then a.level < b.level
    else if a.x != b.x then a.x < b.x
    else if a.y != b.y then a.y < b.y
    else a.z < b.z
  }

  predicate AtMost(a: TileId, b: TileId) { !Less(b, a) }

  /** Division by two that truncates toward zero, as the source language's does. */
  function Half(i: int): int
  {
    if i >= 0 then i / 2 else -((-i) / 2)
  }

  function Parent(id: TileId): TileId
  {
    TileId(id.level - 1, Half(id.x), Half(id.y), Half(id.z))
  }

  /** The ancestor `n` levels up. */
  function Up(id: TileId, n: nat): (r: TileId)
    ensures r.level == id.level - n
    decreases n
  {
    if n == 0 then id else Up(Parent(id), n - 1)
  }

  lemma {:induction false} UpUp(id: TileId, m: nat, n: nat)
    ensures Up(Up(id, m), n) == Up(id, m + n)
    decreases m
  {
    if m > 0 {
      UpUp(Parent(id), m - 1, n);
    }
  }

  /** `a` is `d` or an ancestor of `d`. */
  predicate Above(a: TileId, d: TileId)
  {
    a.level <= d.level && Up(d, d.level - a.level) == a
  }

  lemma AboveTransitive(a: TileId, b: TileId, c: TileId)
    requires Above(a, b) && Above(b, c)
    ensures Above(a, c)
  {
    UpUp(c, c.level - b.level, b.level - a.level);
  }

  /** Two ancestors of one tile are comparable. */
  lemma AboveLinear(a: TileId, b: TileId, d: TileId)
    requires Above(a, d) && Above(b, d) && a.level <= b.level
    ensures Above(a, b)
  {
    UpUp(d, d.level - b.level, b.level - a.level);
  }

  function Pow2(n: nat): (r: nat)
    ensures r >= 1
  {
    if n == 0 then 1 else 2 * Pow2(n - 1)
  }

  /** An identity the adaptive planner gives out: coordinates start at zero, and `z` is unused. */
  predicate Planar(id: TileId)
  {
    id.level >= 0 && id.x >= 0 && id.y >= 0 && id.z == 0
  }

  lemma DivideTwice(x: nat, m: nat)
    requires m > 0
    ensures x / (2 * m) == x / 2 / m
  {
    var q := x / 2;
    var t, u := q / m, q % m;
    assert q == m * t + u;
    assert x == (2 * m) * t + (2 * u + x % 2);
    Quotient(x, 2 * m, t, 2 * u + x % 2);
  }

  lemma Quotient(x: nat, d: nat, t: nat, rest: nat)
    requires d > 0 && x == d * t + rest && rest < d
    ensures x / d == t
  {
    var k := x / d;
    assert x == d * k + x % d;
    assert k < t ==> d * (k + 1) <= d * t;
    assert k > t ==> d * (t + 1) <= d * k;
  }

  /** Going up halves the coordinates at every level. */
  lemma {:induction false} UpDivides(id: TileId, n: nat)
    requires id.x >= 0 && id.y >= 0 && id.z >= 0
    ensures Up(id, n) == TileId(id.level - n, id.x / Pow2(n), id.y / Pow2(n), id.z / Pow2(n))
    decreases n
  {
    if n > 0 {
      UpDivides(Parent(id), n - 1);
      DivideTwice(id.x, Pow2(n - 1));
      DivideTwice(id.y, Pow2(n - 1));
      DivideTwice(id.z, Pow2(n - 1));
    }
  }

  // ----- Sorting by identity

  lemma AtMostTransitive(a: TileId, b: TileId, c: TileId)
    requires AtMost(a, b) && AtMost(b, c)
    ensures AtMost(a, c)
  {
  }

  ghost predicate SortedBy<T>(key: T -> TileId, s: seq<T>)
  {
    forall i, j :: 0 <= i < j < |s| ==> AtMost(key(s[i]), key(s[j]))
  }

  function Insert<T>(key: T -> TileId, x: T, s: seq<T>): (r: seq<T>)
    ensures multiset(r) == multiset(s) + multiset{x}
  {
    if s == [] then [x]
    else if Less(key(x), key(s[|s| - 1])) then
      assert s == s[..|s| - 1] + [s[|s| - 1]];
      Insert(key, x, s[..|s| - 1]) + [s[|s| - 1]]
    else s + [x]
  }

  /** The library sort: the elements of `s` in ascending order of their identities. */
  function Sort<T>(key: T -> TileId, s: seq<T>): (r: seq<T>)
    ensures multiset(r) == multiset(s)
  {
    if s == [] then []
    else
      assert s == s[..|s| - 1] + [s[|s| - 1]];
      Insert(key, s[|s| - 1], Sort(key, s[..|s| - 1]))
  }

  lemma InsertMember<T>(key: T -> TileId, x: T, s: seq<T>, i: nat)
    requires i < |Insert(key, x, s)|
    ensures Insert(key, x, s)[i] == x || Insert(key, x, s)[i] in s
  {
    hide Insert;
    var r := Insert(key, x, s);
    assert r[i] in multiset(r);
  }

  lemma LessOrAtMost(a: TileId, b: TileId)
    ensures if Less(a, b) then AtMost(a, b) else AtMost(b, a)
  {
  }

  lemma SortedBehind<T>(key: T -> TileId, s: seq<T>, x: T)
    requires SortedBy(key, s) && forall i :: 0 <= i < |s| ==> AtMost(key(s[i]), key(x))
    ensures SortedBy(key, s + [x])
  {
    hide AtMost;
  }

  lemma {:induction false} InsertSorted<T>(key: T -> TileId, x: T, s: seq<T>)
    requires SortedBy(key, s)
    ensures SortedBy(key, Insert(key, x, s))
  {
    hide Less, AtMost;
    if s == [] {
      assert Insert(key, x, s) == [x];
    } else {
      var m := |s| - 1;
      LessOrAtMost(key(x), key(s[m]));
      if Less(key(x), key(s[m])) {
        InsertSorted(key, x, s[..m]);
        var r := Insert(key, x, s[..m]);
        forall i | 0 <= i < |r| ensures AtMost(key(r[i]), key(s[m])) {
          InsertMember(key, x, s[..m], i);
        }
        SortedBehind(key, r, s[m]);
      } else {
        forall i | 0 <= i < |s| ensures AtMost(key(s[i]), key(x)) {
          if i < m {
            AtMostTransitive(key(s[i]), key(s[m]), key(x));
          }
        }
        SortedBehind(key, s, x);
      }
    }
  }

  lemma {:induction false} SortSorted<T>(key: T -> TileId, s: seq<T>)
    ensures SortedBy(key, Sort(key, s))
  {
    if s != [] {
      SortSorted(key, s[..|s| - 1]);
      InsertSorted(key, s[|s| - 1], Sort(key, s[..|s| - 1]));
    }
  }

  lemma SortMember<T>(key: T -> TileId, s: seq<T>, x: T)
    ensures x in Sort(key, s) <==> x in s
  {
    assert x in Sort(key, s) <==> x in multiset(Sort(key, s));
    assert x in s <==> x in multiset(s);
  }

  ghost predicate UniqueBy<T>(key: T -> TileId, s: seq<T>)
  {
    forall i, j :: 0 <= i < j < |s| ==> key(s[i]) != key(s[j])
  }

  lemma {:induction false} InsertUnique<T>(key: T -> TileId, x: T, s: seq<T>)
    requires UniqueBy(key, s) && forall y :: y in s ==> key(y) != key(x)
    ensures UniqueBy(key, Insert(key, x, s))
  {
    if s != [] && Less(key(x), key(s[|s| - 1])) {
      var m := |s| - 1;
      InsertUnique(key, x, s[..m]);
      hide Less;
      var r := Insert(key, x, s[..m]);
      forall i | 0 <= i < |r| ensures key(r[i]) != key(s[m]) {
        InsertMember(key, x, s[..m], i);
      }
    }
  }

  /** Sorting keeps identities unique. */
  lemma {:induction false} SortUnique<T>(key: T -> TileId, s: seq<T>)
    requires UniqueBy(key, s)
    ensures UniqueBy(key, Sort(key, s))
  {
    if s != [] {
      var m := |s| - 1;
      SortUnique(key, s[..m]);
      forall y | y in Sort(key, s[..m]) ensures key(y) != key(s[m]) {
        SortMember(key, s[..m], y);
      }
      InsertUnique(key, s[m], Sort(key, s[..m]));
    }
  }
}
