/** Little-endian numbers in byte sequences. */
module Bytes {

  type byte = b: int | 0 <= b < 256

  function Pow256(width: nat): (r: nat)
    ensures r >= 1
  {
    if width == 0 then 1 else 256 * Pow256(width - 1)
  }

  function FromBytes(bytes: seq<byte>): nat
  {
    if bytes == [] then 0 else bytes[0] + 256 * FromBytes(bytes[1..])
  }

  /** The low `width` bytes of `n`, lowest first. */
  function ToBytes(n: nat, width: nat): (r: seq<byte>)
    ensures |r| == width
    decreases width
  {
    if width == 0 then [] else [n % 256] + ToBytes(n / 256, width - 1)
  }

  function UnsignedAt(bytes: seq<byte>, at: nat, width: nat): nat
    requires at + width <= |bytes|
  {
    FromBytes(bytes[at..at + width])
  }

  /** A number below `Pow256(width)` read as two's complement. */
  function AsSigned(u: nat, width: nat): int
  {
    if 2 * u >= Pow256(width) then u - Pow256(width) else u
  }

  predicate FitsSigned(i: int, width: nat)
  {
    0 <= 2 * i + Pow256(width) < 2 * Pow256(width)
  }

  /** The two's complement of a number that fits. */
  function AsUnsignedWord(i: int, width: nat): nat
    requires FitsSigned(i, width)
  {
    if i >= 0 then i else i + Pow256(width)
  }

  function SignedAt(bytes: seq<byte>, at: nat, width: nat): int
    requires at + width <= |bytes|
  {
    AsSigned(UnsignedAt(bytes, at, width), width)
  }

  lemma {:induction false} BytesRoundTrip(n: nat, width: nat)
    requires n < Pow256(width)
    ensures FromBytes(ToBytes(n, width)) == n
    decreases width
  {
    if width > 0 {
      BytesRoundTrip(n / 256, width - 1);
      assert ToBytes(n, width)[1..] == ToBytes(n / 256, width - 1);
    }
  }

  lemma {:induction false} NumberRoundTrip(bytes: seq<byte>)
    ensures FromBytes(bytes) < Pow256(|bytes|)
    ensures ToBytes(FromBytes(bytes), |bytes|) == bytes
  {
    if bytes != [] {
      NumberRoundTrip(bytes[1..]);
      assert FromBytes(bytes) % 256 == bytes[0] && FromBytes(bytes) / 256 == FromBytes(bytes[1..]);
      assert bytes == [bytes[0]] + bytes[1..];
    }
  }

  lemma SignedRoundTrip(i: int, width: nat)
    requires FitsSigned(i, width)
    ensures AsUnsignedWord(i, width) < Pow256(width)
    ensures AsSigned(AsUnsignedWord(i, width), width) == i
  {
  }

  lemma UnsignedRoundTrip(u: nat, width: nat)
    requires width > 0 && u < Pow256(width)
    ensures FitsSigned(AsSigned(u, width), width)
    ensures AsUnsignedWord(AsSigned(u, width), width) == u
  {
    assert Pow256(width) == 256 * Pow256(width - 1);
  }
}
