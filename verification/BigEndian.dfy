/** Big-endian 32-bit fields, as in boot-ROM frames and UBI headers. */
module BigEndian {
  import opened Bits

  function Be32(n: nat): (s: seq<Byte>)
    ensures |s| == 4
  {
    [n / 16777216 % 256, n / 65536 % 256, n / 256 % 256, n % 256]
  }

  function FromBe32(s: seq<Byte>): nat
    requires |s| == 4
  {
    var a: int, b: int, c: int, d: int := s[0], s[1], s[2], s[3];
    16777216 * a + 65536 * b + 256 * c + d
  }

  lemma Be32RoundTrip(n: nat)
    requires n < 0x1_0000_0000
    ensures FromBe32(Be32(n)) == n
  {
    FourBytes(n);
  }

  /** The most significant byte comes first. */
  lemma Be32Order(a: Byte, b: Byte, c: Byte, d: Byte)
    ensures Be32(16777216 * a + 65536 * b + 256 * c + d) == [a, b, c, d]
  {
    var n: nat := 16777216 * a + 65536 * b + 256 * c + d;
    DivModBy(n, 16777216, a, 65536 * b + 256 * c + d);
    DivModBy(n, 65536, 256 * a + b, 256 * c + d);
    DivModBy(n, 256, 65536 * a + 256 * b + c, d);
    DivModBy(256 * a + b, 256, a, b);
    DivModBy(65536 * a + 256 * b + c, 256, 256 * a + b, c);
  }
}
