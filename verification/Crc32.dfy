/** CRC-32 with the reflected polynomial 0xEDB88320, shared by zlib on the host
    and by the agent's table-driven loop. */
module Crc32 {
  import opened Bits

  const POLY := 0xEDB88320
  const ONES := 0xFFFF_FFFF

  function ShiftBit(c: nat): nat
  {
    if c % 2 == 1 then Xor(c / 2, POLY) else c / 2
  }

  function ShiftBits(c: nat, n: nat): nat
    decreases n
  {
    if n == 0 then c else ShiftBits(ShiftBit(c), n - 1)
  }

  /** Entry i of the 256-entry lookup table. */
  function Table(i: nat): nat
  {
    ShiftBits(i, 8)
  }

  /** One byte through the register. */
  function Step(c: nat, b: Byte): nat
  {
    Xor(Table(Xor(c, b) % 256), c / 256)
  }

  function Fold(c: nat, bs: seq<Byte>): nat
    decreases |bs|
  {
    if bs == [] then c else Fold(Step(c, bs[0]), bs[1..])
  }

  /** The checksum of bs continued from an earlier checksum. */
  function Crc(seed: nat, bs: seq<Byte>): nat
  {
    Xor(Fold(Xor(seed, ONES), bs), ONES)
  }

  lemma {:induction false} FoldAppend(c: nat, a: seq<Byte>, b: seq<Byte>)
    ensures Fold(c, a + b) == Fold(Fold(c, a), b)
    decreases |a|
  {
    if a == [] {
      assert a + b == b;
    } else {
      assert (a + b)[1..] == a[1..] + b;
      FoldAppend(Step(c, a[0]), a[1..], b);
    }
  }

  /** Checksumming piece by piece equals checksumming the whole. */
  lemma Compose(seed: nat, a: seq<Byte>, b: seq<Byte>)
    ensures Crc(Crc(seed, a), b) == Crc(seed, a + b)
  {
    XorTwice(Fold(Xor(seed, ONES), a), ONES);
    FoldAppend(Xor(seed, ONES), a, b);
  }

  /** An empty piece leaves the checksum alone. */
  lemma EmptyPiece(seed: nat)
    ensures Crc(seed, []) == seed
  {
    XorTwice(seed, ONES);
  }

  lemma ShiftBitBound(c: nat)
    requires c < Pow2(32)
    ensures ShiftBit(c) < Pow2(32)
  {
    hide Pow2, Xor;
    Pow32();
    XorBound(c / 2, POLY, 32);
  }

  lemma {:induction false} ShiftBitsBound(c: nat, n: nat)
    requires c < Pow2(32)
    ensures ShiftBits(c, n) < Pow2(32)
    decreases n
  {
    hide Pow2, ShiftBit;
    if n > 0 {
      ShiftBitBound(c);
      ShiftBitsBound(ShiftBit(c), n - 1);
    }
  }

  lemma Pow32()
    ensures Pow2(8) == 256 && Pow2(16) == 0x1_0000 && Pow2(32) == 0x1_0000_0000
  {
    assert Pow2(8) == 256;
    assert Pow2(12) == 16 * Pow2(8);
    assert Pow2(16) == 16 * Pow2(12);
    assert Pow2(20) == 16 * Pow2(16);
    assert Pow2(24) == 16 * Pow2(20);
    assert Pow2(28) == 16 * Pow2(24);
    assert Pow2(32) == 16 * Pow2(28);
  }

  lemma {:induction false} FoldBound(c: nat, bs: seq<Byte>)
    requires c < Pow2(32)
    ensures Fold(c, bs) < Pow2(32)
    decreases |bs|
  {
    if bs != [] {
      Pow32();
      var i := Xor(c, bs[0]) % 256;
      ShiftBitsBound(i, 8);
      XorBound(Table(i), c / 256, 32);
      FoldBound(Step(c, bs[0]), bs[1..]);
    }
  }

  /** The checksum fits the four bytes it travels in. */
  lemma Fits(bs: seq<Byte>)
    ensures Crc(0, bs) < 0x1_0000_0000
  {
    Pow32();
    XorZero(ONES);
    FoldBound(ONES, bs);
    XorBound(Fold(ONES, bs), ONES, 32);
  }

  /** The agent's byte loop (agent/protocol.c). */
  method Compute(seed: nat, buf: seq<Byte>) returns (crc: nat)
    ensures crc == Crc(seed, buf)
  {
    crc := Xor(seed, ONES);
    var i := 0;
    while i < |buf|
      invariant 0 <= i <= |buf|
      invariant Fold(crc, buf[i..]) == Fold(Xor(seed, ONES), buf)
    {
      assert buf[i..][1..] == buf[i + 1..];
      crc := Xor(Table(Xor(crc, buf[i]) % 256), crc / 256);
      i := i + 1;
    }
    crc := Xor(crc, ONES);
  }

  /** Little-endian packing of a 32-bit value. */
  function Le32(n: nat): (s: seq<Byte>)
    ensures |s| == 4
  {
    [n % 256, n / 256 % 256, n / 65536 % 256, n / 16777216 % 256]
  }

  function FromLe32(s: seq<Byte>): nat
    requires |s| == 4
  {
    var a: int, b: int, c: int, d: int := s[0], s[1], s[2], s[3];
    a + 256 * b + 65536 * c + 16777216 * d
  }

  /** The least significant byte comes first. */
  lemma Le32Order(a: Byte, b: Byte, c: Byte, d: Byte)
    ensures Le32(a + 256 * b + 65536 * c + 16777216 * d) == [a, b, c, d]
  {
    var n: nat := a + 256 * b + 65536 * c + 16777216 * d;
    DivModBy(n, 256, b + 256 * c + 65536 * d, a);
    DivModBy(n, 65536, c + 256 * d, a + 256 * b);
    DivModBy(n, 16777216, d, a + 256 * b + 65536 * c);
    DivModBy(b + 256 * c + 65536 * d, 256, c + 256 * d, b);
    DivModBy(c + 256 * d, 256, d, c);
  }

  lemma Le32RoundTrip(n: nat)
    requires n < 0x1_0000_0000
    ensures FromLe32(Le32(n)) == n
  {
    FourBytes(n);
  }
}
