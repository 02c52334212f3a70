/** Morton codes of quadtree tiles, and what a range of terminal codes means. */
module Morton {
  import opened TileIds
  import opened Quadtree

  /** `v >> n`. */
  function ShiftRight(v: int, n: nat): int
  {
    if n == 0 then v else ShiftRight(v, n - 1) / 2
  }

  /** `4 << (2 * n)`, the number of codes at depth `n`. */
  function Pow4(n: nat): (r: nat)
    ensures r >= 1
  {
    if n == 0 then 1 else 4 * Pow4(n - 1)
  }

  /** The interleaving of the low `depth` bits of `x` and `y`, x below y. */
  function Interleave(x: int, y: int, depth: nat): nat
    decreases depth
  {
    if depth == 0 then 0 else 4 * Interleave(x / 2, y / 2, depth - 1) + x % 2 + 2 * (y % 2)
  }

  lemma {:induction false} ShiftFirst(v: int, n: nat)
    ensures ShiftRight(v / 2, n) == ShiftRight(v, n + 1)
  {
    if n > 0 {
      ShiftFirst(v, n - 1);
    }
  }

  /** The source's loop takes the bits from the highest down. */
  method EncodeMortonPrefix(x: int, y: int, depth: nat) returns (code: nat)
    ensures code == Interleave(x, y, depth)
  {
    code := 0;
    var bit := depth - 1;
    while bit >= 0
      invariant -1 <= bit < depth
      invariant code == Interleave(ShiftRight(x, bit + 1), ShiftRight(y, bit + 1), depth - 1 - bit)
    {
      code := code * 4 + ShiftRight(x, bit) % 2 + 2 * (ShiftRight(y, bit) % 2);
      bit := bit - 1;
    }
  }

  /** The code of a tile. */
  function Code(id: TileId): nat
    requires id.level >= 0
  {
    Interleave(id.x, id.y, id.level)
  }

  lemma {:induction false} InterleaveBound(x: int, y: int, depth: nat)
    ensures Interleave(x, y, depth) < Pow4(depth)
    decreases depth
  {
    if depth > 0 {
      InterleaveBound(x / 2, y / 2, depth - 1);
    }
  }

  /** No code, and no end of a code range, leaves 64 bits at the depths a plan may have. */
  lemma CodesFit(id: TileId, maxDepth: nat)
    requires 0 <= id.level <= maxDepth <= MAX_DEPTH
    ensures Code(id) < Pow4(id.level)
    ensures (Code(id) + 1) * Pow4(maxDepth - id.level) <= 0x4000_0000_0000_0000
  {
    InterleaveBound(id.x, id.y, id.level);
    PowAdd(id.level, maxDepth - id.level);
    MulMonotone(Code(id) + 1, Pow4(id.level), Pow4(maxDepth - id.level));
    PowMonotone(maxDepth, MAX_DEPTH);
    assert Pow4(31) == 0x4000_0000_0000_0000 by {
      PowAdd(16, 15);
      PowAdd(8, 8);
      PowAdd(8, 7);
      assert Pow4(8) == 0x1_0000;
      assert Pow4(7) == 0x4000;
    }
  }

  lemma MulMonotone(a: nat, b: nat, c: nat)
    requires a <= b
    ensures a * c <= b * c
  {
  }

  lemma {:induction false} PowAdd(a: nat, b: nat)
    ensures Pow4(a + b) == Pow4(a) * Pow4(b)
  {
    if a > 0 {
      PowAdd(a - 1, b);
      assert 4 * (Pow4(a - 1) * Pow4(b)) == (4 * Pow4(a - 1)) * Pow4(b);
    }
  }

  lemma {:induction false} PowMonotone(a: nat, b: nat)
    requires a <= b
    ensures Pow4(a) <= Pow4(b)
  {
    if a < b {
      PowMonotone(a, b - 1);
    }
  }

  /** The terminal codes below a tile are one contiguous range. */
  lemma {:induction false} RangeBelow(d: TileId, prefix: nat, n: nat)
    requires Planar(d) && n <= d.level
    ensures prefix * Pow4(n) <= Code(d) < (prefix + 1) * Pow4(n) <==> Code(Up(d, n)) == prefix
    decreases n
  {
    if n > 0 {
      assert Code(d) == 4 * Code(Parent(d)) + d.x % 2 + 2 * (d.y % 2);
      hide Code;
      RangeBelow(Parent(d), prefix, n - 1);
      var p, q := Pow4(n - 1), Pow4(n);
      assert q == 4 * p;
      assert prefix * q == 4 * (prefix * p) && (prefix + 1) * q == 4 * ((prefix + 1) * p);
    }
  }

  /** At one level, different tiles below the root have different codes. */
  lemma {:induction false} CodeInjective(a: TileId, b: TileId)
    requires Planar(a) && Planar(b) && a.level == b.level
    requires Above(ROOT, a) && Above(ROOT, b) && Code(a) == Code(b)
    ensures a == b
    decreases a.level
  {
    if a.level > 0 {
      assert Code(a) == 4 * Code(Parent(a)) + a.x % 2 + 2 * (a.y % 2);
      assert Code(b) == 4 * Code(Parent(b)) + b.x % 2 + 2 * (b.y % 2);
      CodeInjective(Parent(a), Parent(b));
    }
  }
}
