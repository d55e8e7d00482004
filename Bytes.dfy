/** Byte-level view of the integers the converter reads and writes.
    The host is little-endian: a value stored in memory occupies its
    little-endian byte representation, so reading a field of a struct
    laid over raw file bytes yields `FromLe` of those bytes. */
module Bytes {

  type byte = b: int | 0 <= b < 256

  /** 256^n: the number of distinct values of an n-byte unsigned integer. */
  function Pow256(n: nat): (r: nat)
    ensures r >= 1
  {
    if n == 0 then 1 else 256 * Pow256(n - 1)
  }

  /** 2^n, the value of `1 << n`. */
  function Pow2(n: nat): (r: nat)
    ensures r >= 1
  {
    if n == 0 then 1 else 2 * Pow2(n - 1)
  }

  const U16Modulus: nat := 0x1_0000
  const U32Modulus: nat := 0x1_0000_0000

  lemma Pow256Widths()
    ensures Pow256(2) == U16Modulus && Pow256(4) == U32Modulus
  {
  }

  /** Unsigned 32-bit arithmetic (C++ `u32`): results wrap modulo 2^32,
      and are exact while the mathematical result fits. */
  function AddU32(a: nat, b: nat): (r: nat)
    ensures r < U32Modulus
    ensures a + b < U32Modulus ==> r == a + b
    ensures U32Modulus <= a + b < 2 * U32Modulus ==> r == a + b - U32Modulus
  {
    (a + b) % U32Modulus
  }

  function MulU32(a: nat, b: nat): (r: nat)
    ensures r < U32Modulus
    ensures a * b < U32Modulus ==> r == a * b
  {
    (a * b) % U32Modulus
  }

  function SubU32(a: nat, b: nat): (r: nat)
    ensures r < U32Modulus
    ensures b <= a < U32Modulus + b ==> r == a - b
    ensures a < b <= a + U32Modulus ==> r == U32Modulus - (b - a)
  {
    (a - b) % U32Modulus
  }

  /** Multiplying by the same factor keeps the order. */
  lemma {:induction false} MulMonotone(a: nat, b: nat, n: nat)
    requires a <= b
    ensures a * n <= b * n
    decreases b - a
  {
    if a < b {
      MulMonotone(a, b - 1, n);
      assert b * n == (b - 1) * n + n;
    }
  }

  /** The conversion of an integer to `s16` (two's complement wrap-around). */
  function WrapS16(x: int): (r: int)
    ensures -0x8000 <= r < 0x8000
    ensures (r - x) % U16Modulus == 0
  {
    var m := x % U16Modulus;
    if m >= 0x8000 then m - U16Modulus else m
  }

  /** Unsigned value of a little-endian byte sequence (least significant byte first). */
  function FromLe(bs: seq<byte>): (r: nat)
    ensures r < Pow256(|bs|)
  {
    if bs == [] then 0 else bs[0] + 256 * FromLe(bs[1..])
  }

  /** Unsigned value of a big-endian byte sequence (most significant byte first). */
  function FromBe(bs: seq<byte>): nat
  {
    if bs == [] then 0 else FromBe(bs[..|bs| - 1]) * 256 + bs[|bs| - 1]
  }

  /** The n-byte little-endian representation of u (as stored in memory). */
  function ToLe(u: nat, n: nat): (r: seq<byte>)
    ensures |r| == n
  {
    if n == 0 then [] else [u % 256] + ToLe(u / 256, n - 1)
  }

  function Reversed(s: seq<byte>): (r: seq<byte>)
    ensures |r| == |s|
    ensures forall k :: 0 <= k < |s| ==> r[k] == s[|s| - 1 - k]
  {
    seq(|s|, k requires 0 <= k < |s| => s[|s| - 1 - k])
  }

  /** The n-byte big-endian representation of u (as stored in an AST file). */
  function ToBe(u: nat, n: nat): (r: seq<byte>)
    ensures |r| == n
  {
    Reversed(ToLe(u, n))
  }

  /** What `swap_endian` returns for an n-byte value u: the value whose
      memory bytes are those of u in the opposite order. */
  function SwapValue(u: nat, n: nat): nat
  {
    FromBe(ToLe(u, n))
  }

  /** swap_endian<T>: copy the bytes of the union's source view into the
      destination view in reverse order, then read the destination back. */
  method SwapEndian(u: nat, width: nat) returns (r: nat)
    ensures r == SwapValue(u, width)
    ensures width == 2 ==> r < U16Modulus
    ensures width == 4 ==> r < U32Modulus
  {
    Pow256Widths();
    var source := ToLe(u, width);
    var dest := new byte[width];
    var k := 0;
    while k < width
      invariant 0 <= k <= width
      invariant forall m :: 0 <= m < k ==> dest[m] == source[width - m - 1]
    {
      dest[k] := source[width - k - 1];
      k := k + 1;
    }
    assert dest[..] == Reversed(source);
    LeOfReversed(source);
    r := FromLe(dest[..]);
  }

  // ---------------------------------------------------------------------
  // Round trips between values and their byte representations

  lemma {:induction false} LeRoundTrip(u: nat, n: nat)
    requires u < Pow256(n)
    ensures FromLe(ToLe(u, n)) == u
  {
    if n > 0 {
      assert u / 256 < Pow256(n - 1);
      LeRoundTrip(u / 256, n - 1);
      assert ToLe(u, n)[1..] == ToLe(u / 256, n - 1);
    }
  }

  lemma {:induction false} LeBytesRoundTrip(bs: seq<byte>)
    ensures ToLe(FromLe(bs), |bs|) == bs
  {
    if bs != [] {
      var v := FromLe(bs[1..]);
      assert (bs[0] + 256 * v) % 256 == bs[0];
      assert (bs[0] + 256 * v) / 256 == v;
      LeBytesRoundTrip(bs[1..]);
      assert bs == [bs[0]] + bs[1..];
    }
  }

  lemma ReversedTwice(s: seq<byte>)
    ensures Reversed(Reversed(s)) == s
  {
  }

  /** Reading reversed bytes little-endian is reading the original bytes big-endian. */
  lemma {:induction false} LeOfReversed(bs: seq<byte>)
    ensures FromLe(Reversed(bs)) == FromBe(bs)
  {
    if bs != [] {
      var init := bs[..|bs| - 1];
      assert Reversed(bs)[1..] == Reversed(init);
      LeOfReversed(init);
    }
  }

  /** swap_endian reverses the byte order of its argument. */
  lemma SwapValueBytes(u: nat, n: nat)
    ensures SwapValue(u, n) < Pow256(n)
    ensures ToLe(SwapValue(u, n), n) == Reversed(ToLe(u, n))
  {
    LeOfReversed(ToLe(u, n));
    LeBytesRoundTrip(Reversed(ToLe(u, n)));
  }

  /** Applying swap_endian twice gives back the original value. */
  lemma SwapValueTwice(u: nat, n: nat)
    requires u < Pow256(n)
    ensures SwapValue(SwapValue(u, n), n) == u
  {
    SwapValueBytes(u, n);
    LeOfReversed(Reversed(ToLe(u, n)));
    ReversedTwice(ToLe(u, n));
    LeRoundTrip(u, n);
  }

  /** Swapping a field read from memory (little-endian) yields the value its
      bytes denote in big-endian order, which is what the file stores. */
  lemma SwapOfLeIsBe(bs: seq<byte>)
    ensures SwapValue(FromLe(bs), |bs|) == FromBe(bs)
  {
    LeBytesRoundTrip(bs);
  }

  /** Re-encoding a big-endian field reproduces its bytes exactly. */
  lemma BeRoundTrip(bs: seq<byte>)
    ensures ToBe(FromBe(bs), |bs|) == bs
  {
    LeOfReversed(bs);
    LeBytesRoundTrip(Reversed(bs));
    ReversedTwice(bs);
  }

  lemma WrapS16OfUnsigned(x: nat)
    requires x < U16Modulus
    ensures WrapS16(x) % U16Modulus == x
  {
  }

  /** An s16 value stored as its unsigned 16-bit pattern reads back unchanged. */
  lemma WrapS16OfPattern(x: int)
    requires -0x8000 <= x < 0x8000
    ensures WrapS16(x % U16Modulus) == x
  {
  }
}
