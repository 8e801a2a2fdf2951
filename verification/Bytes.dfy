/** Byte strings and the fixed-width integer encodings used on the wire. */
module Bytes {
  type byte = b: int | 0 <= b < 256
  type bytes = seq<byte>

  const U32_END: int := 0x1_0000_0000
  const I32_END: int := 0x8000_0000
  const U64_END: int := 0x1_0000_0000_0000_0000
  const I64_END: int := 0x8000_0000_0000_0000

  type u32 = v: int | 0 <= v < U32_END
  type i32 = v: int | -I32_END <= v < I32_END
  type u64 = v: int | 0 <= v < U64_END
  type i64 = v: int | -I64_END <= v < I64_END

  const U64_MAX: u64 := U64_END - 1

  /** Rust's `saturating_add` on cursors. */
  function SaturatingAdd(c: u64, n: nat): u64
  {
    if c + n <= U64_MAX then c + n else U64_MAX
  }

  /** 256 to the power n: one past the largest value of n bytes. */
  function Range(n: nat): (r: nat)
    ensures 0 < r
  {
    if n == 0 then 1 else 256 * Range(n - 1)
  }

  lemma RangeWidths()
    ensures Range(3) == 0x100_0000 && Range(4) == U32_END && Range(8) == U64_END
  {
    assert Range(1) == 256;
    assert Range(2) == 0x1_0000;
    assert Range(3) == 0x100_0000;
    assert Range(4) == 0x1_0000_0000;
    assert Range(5) == 0x100_0000_0000;
    assert Range(6) == 0x1_0000_0000_0000;
    assert Range(7) == 0x100_0000_0000_0000;
  }

  function Zeros(n: nat): (s: bytes)
    ensures |s| == n
  {
    seq(n, i => 0)
  }

  // -------------------------------------------------------------- little endian

  function LeBytes(v: nat, n: nat): (s: bytes)
    ensures |s| == n
  {
    if n == 0 then [] else [v % 256] + LeBytes(v / 256, n - 1)
  }

  function LeValue(s: bytes): nat
  {
    if s == [] then 0 else s[0] + 256 * LeValue(s[1..])
  }

  lemma {:induction false} LeValueBound(s: bytes)
    ensures LeValue(s) < Range(|s|)
  {
    if s != [] { LeValueBound(s[1..]); }
  }

  /** Fixed-width decoding undoes encoding on every value that fits. */
  lemma {:induction false} LeRoundTrip(v: nat, n: nat)
    requires v < Range(n)
    ensures LeValue(LeBytes(v, n)) == v
  {
    if n != 0 {
      LeRoundTrip(v / 256, n - 1);
      assert LeBytes(v, n)[1..] == LeBytes(v / 256, n - 1);
    }
  }

  /** ... and encoding undoes decoding on every byte string. */
  lemma {:induction false} LeRoundTripBytes(s: bytes)
    ensures LeBytes(LeValue(s), |s|) == s
  {
    if s != [] {
      var rest := LeValue(s[1..]);
      LeRoundTripBytes(s[1..]);
      assert LeValue(s) % 256 == s[0] && LeValue(s) / 256 == rest;
      assert [s[0]] + s[1..] == s;
    }
  }

  lemma Le32RoundTrip(v: u32)
    ensures LeValue(LeBytes(v, 4)) == v
  {
    RangeWidths();
    LeRoundTrip(v, 4);
  }

  lemma Le64RoundTrip(v: u64)
    ensures LeValue(LeBytes(v, 8)) == v
  {
    RangeWidths();
    LeRoundTrip(v, 8);
  }

  // ----------------------------------------------------- two's complement views

  function I32ToBytes(v: i32): (s: bytes)
    ensures |s| == 4
  {
    LeBytes(if v < 0 then v + U32_END else v, 4)
  }

  function I32FromBytes(s: bytes): i32
    requires |s| == 4
  {
    LeValueBound(s);
    RangeWidths();
    var u := LeValue(s);
    if u < I32_END then u else u - U32_END
  }

  function U32FromBytes(s: bytes): u32
    requires |s| == 4
  {
    LeValueBound(s);
    RangeWidths();
    LeValue(s)
  }

  function I64ToBytes(v: i64): (s: bytes)
    ensures |s| == 8
  {
    LeBytes(if v < 0 then v + U64_END else v, 8)
  }

  function I64FromBytes(s: bytes): i64
    requires |s| == 8
  {
    LeValueBound(s);
    RangeWidths();
    var u := LeValue(s);
    if u < I64_END then u else u - U64_END
  }

  function U64FromBytes(s: bytes): u64
    requires |s| == 8
  {
    LeValueBound(s);
    RangeWidths();
    LeValue(s)
  }

  lemma I32RoundTrip(v: i32)
    ensures I32FromBytes(I32ToBytes(v)) == v
  {
    Le32RoundTrip(if v < 0 then v + U32_END else v);
  }

  lemma I64RoundTrip(v: i64)
    ensures I64FromBytes(I64ToBytes(v)) == v
  {
    Le64RoundTrip(if v < 0 then v + U64_END else v);
  }

  /** Reading a fixed-width number and writing it again restores its bytes. */
  lemma I64Bytes(s: bytes)
    requires |s| == 8
    ensures I64ToBytes(I64FromBytes(s)) == s
  {
    LeValueBound(s);
    RangeWidths();
    LeRoundTripBytes(s);
  }

  lemma I32Bytes(s: bytes)
    requires |s| == 4
    ensures I32ToBytes(I32FromBytes(s)) == s
  {
    LeValueBound(s);
    RangeWidths();
    LeRoundTripBytes(s);
  }

  lemma U32Bytes(s: bytes)
    requires |s| == 4
    ensures LeBytes(U32FromBytes(s), 4) == s
  {
    LeRoundTripBytes(s);
  }

  // ----------------------------------------------------------------- big endian

  function BeBytes(v: nat, n: nat): (s: bytes)
    ensures |s| == n
  {
    if n == 0 then [] else BeBytes(v / 256, n - 1) + [v % 256]
  }

  function BeValue(s: bytes): nat
  {
    if s == [] then 0 else BeValue(s[..|s| - 1]) * 256 + s[|s| - 1]
  }

  lemma {:induction false} BeValueBound(s: bytes)
    ensures BeValue(s) < Range(|s|)
  {
    if s != [] { BeValueBound(s[..|s| - 1]); }
  }

  lemma {:induction false} BeRoundTrip(v: nat, n: nat)
    requires v < Range(n)
    ensures BeValue(BeBytes(v, n)) == v
  {
    if n != 0 {
      BeRoundTrip(v / 256, n - 1);
      assert BeBytes(v, n)[..n - 1] == BeBytes(v / 256, n - 1);
    }
  }

  lemma {:induction false} BeRoundTripBytes(s: bytes)
    ensures BeBytes(BeValue(s), |s|) == s
  {
    if s != [] {
      BeRoundTripBytes(s[..|s| - 1]);
      assert s == s[..|s| - 1] + [s[|s| - 1]];
    }
  }

  /** Leading zero bytes do not change the value. */
  lemma {:induction false} BeLeadingZero(s: bytes)
    ensures BeValue([0] + s) == BeValue(s)
  {
    if s == [] {
      assert ([0] + s)[..0] == [];
    } else {
      BeLeadingZero(s[..|s| - 1]);
      assert ([0] + s)[..|s|] == [0] + s[..|s| - 1];
    }
  }

  /** A non-zero leading byte puts the value into the top range of its width. */
  lemma {:induction false} BeLeadingNonZero(s: bytes)
    requires s != [] && s[0] != 0
    ensures Range(|s| - 1) <= BeValue(s)
  {
    if |s| == 1 {
      assert s[..0] == [];
    } else {
      BeLeadingNonZero(s[..|s| - 1]);
    }
  }

  lemma {:induction false} RangeMonotone(m: nat, n: nat)
    requires m <= n
    ensures Range(m) <= Range(n)
  {
    if m < n { RangeMonotone(m, n - 1); }
  }

  // ------------------------------------------------------------------- xor

  /** Bitwise exclusive or of the low n bits. */
  function XorBits(a: nat, b: nat, n: nat): nat
  {
    if n == 0 then 0 else (a + b) % 2 + 2 * XorBits(a / 2, b / 2, n - 1)
  }

  function Pow2(n: nat): (r: nat)
    ensures 0 < r
  {
    if n == 0 then 1 else 2 * Pow2(n - 1)
  }

  lemma {:induction false} XorBitsBound(a: nat, b: nat, n: nat)
    ensures XorBits(a, b, n) < Pow2(n)
  {
    if n != 0 { XorBitsBound(a / 2, b / 2, n - 1); }
  }

  lemma {:induction false} XorBitsInverse(a: nat, b: nat, n: nat)
    requires a < Pow2(n)
    ensures XorBits(XorBits(a, b, n), b, n) == a
  {
    if n != 0 {
      XorBitsInverse(a / 2, b / 2, n - 1);
      XorBitsHalves(a, b, n);
      ParityCancels(a, b);
    }
  }

  lemma XorBitsHalves(a: nat, b: nat, n: nat)
    requires 0 < n
    ensures XorBits(a, b, n) / 2 == XorBits(a / 2, b / 2, n - 1) && XorBits(a, b, n) % 2 == (a + b) % 2
  {
    var h := XorBits(a / 2, b / 2, n - 1);
    assert XorBits(a, b, n) == (a + b) % 2 + 2 * h;
  }

  lemma ParityCancels(a: nat, b: nat)
    ensures forall x: nat :: x % 2 == (a + b) % 2 ==> (x + b) % 2 == a % 2
  {
  }

  lemma Pow2Byte()
    ensures Pow2(8) == 256
  {
    assert Pow2(4) == 16;
    assert Pow2(6) == 64;
  }

  function XorByte(a: byte, b: byte): byte
  {
    XorBitsBound(a, b, 8);
    Pow2Byte();
    XorBits(a, b, 8)
  }

  /** Positionwise exclusive or of two byte strings of one length. */
  function Xor(a: bytes, b: bytes): (r: bytes)
    requires |a| == |b|
    ensures |r| == |a|
  {
    seq(|a|, i requires 0 <= i < |a| => XorByte(a[i], b[i]))
  }

  /** Xoring twice with the same string restores the original. */
  lemma XorInverse(a: bytes, b: bytes)
    requires |a| == |b|
    ensures Xor(Xor(a, b), b) == a
  {
    forall i | 0 <= i < |a|
      ensures Xor(Xor(a, b), b)[i] == a[i]
    {
      Pow2Byte();
      XorBitsInverse(a[i], b[i], 8);
    }
  }
}
