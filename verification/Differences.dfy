/** Where two byte strings of one length differ. */
module Differences {
  import opened Bits

  function XorBytes(a: Byte, b: Byte): (x: Byte)
    ensures x == Xor(a, b)
  {
    XorByte(a, b);
    Xor(a, b)
  }

  lemma XorByte(a: Byte, b: Byte)
    ensures Xor(a, b) < 256
  {
    assert Pow2(8) == 256;
    XorBound(a, b, 8);
  }

  /** Byte by byte difference. */
  function Diff(f: seq<Byte>, g: seq<Byte>): (d: seq<Byte>)
    requires |f| == |g|
    ensures |d| == |f|
  {
    seq(|f|, i requires 0 <= i < |f| => XorBytes(f[i], g[i]))
  }

  lemma {:induction false} Difference(f: seq<Byte>, g: seq<Byte>) returns (j: nat)
    requires |f| == |g| && f != g
    ensures j < |f| && f[j] != g[j]
    decreases |f|
  {
    if f[0] != g[0] {
      j := 0;
    } else {
      assert f == [f[0]] + f[1..] && g == [g[0]] + g[1..];
      j := Difference(f[1..], g[1..]);
      j := j + 1;
    }
  }
}
