/** What the CRC-32 stands for: the message, as one long number, divided by the polynomial.
    So it is linear, and no change within four adjacent bytes escapes it. */
module Crc32Errors {
  import opened Bits
  import opened Crc32
  import opened Differences

  /** The bytes as one number, the first byte lowest. */
  function Number(bs: seq<Byte>): nat
    decreases |bs|
  {
    if bs == [] then 0 else bs[0] + 256 * Number(bs[1..])
  }

  // ---- The shift register -----------------------------------------------------------------

  lemma ShiftBitLinear(a: nat, b: nat)
    ensures ShiftBit(Xor(a, b)) == Xor(ShiftBit(a), ShiftBit(b))
  {
    XorHalves(a, b);
    hide Xor;
    var x, y := a / 2, b / 2;
    var pa, pb := if a % 2 == 1 then POLY else 0, if b % 2 == 1 then POLY else 0;
    XorZero(x);
    XorZero(y);
    XorZero(Xor(x, y));
    XorZero(POLY);
    XorSelf(POLY);
    XorComm(0, POLY);
    XorSwap(x, pa, y, pb);
  }

  lemma {:induction false} ShiftBitsLinear(a: nat, b: nat, n: nat)
    ensures ShiftBits(Xor(a, b), n) == Xor(ShiftBits(a, n), ShiftBits(b, n))
    decreases n
  {
    hide Xor;
    if n > 0 {
      ShiftBitLinear(a, b);
      ShiftBitsLinear(ShiftBit(a), ShiftBit(b), n - 1);
    }
  }

  lemma {:induction false} ShiftBitsMore(c: nat, n: nat, m: nat)
    ensures ShiftBits(ShiftBits(c, n), m) == ShiftBits(c, n + m)
    decreases n
  {
    hide ShiftBit;
    if n > 0 { ShiftBitsMore(ShiftBit(c), n - 1, m); }
  }

  /** Zeros are shifted out as they are. */
  lemma {:induction false} ShiftedOut(x: nat, n: nat)
    ensures ShiftBits(x * Pow2(n), n) == x
    decreases n
  {
    hide Xor;
    if n > 0 {
      assert x * Pow2(n) == 2 * (x * Pow2(n - 1));
      assert ShiftBit(x * Pow2(n)) == x * Pow2(n - 1);
      ShiftedOut(x, n - 1);
    }
  }

  /** Nothing but zero shifts to zero: the feedback sets the top bit. */
  lemma ShiftBitNonZero(c: nat)
    requires 0 < c < Pow2(32)
    ensures 0 < ShiftBit(c) < Pow2(32)
  {
    Pow32();
    XorBound(c / 2, POLY, 32);
    XorEqualIffZero(c / 2, POLY);
  }

  lemma {:induction false} ShiftBitsNonZero(c: nat, n: nat)
    requires 0 < c < Pow2(32)
    ensures ShiftBits(c, n) != 0
    decreases n
  {
    hide ShiftBit;
    if n > 0 {
      ShiftBitNonZero(c);
      ShiftBitsNonZero(ShiftBit(c), n - 1);
    }
  }

  // ---- Division -----------------------------------------------------------------------------

  /** One byte: eight shifts of the register with the byte laid over it. */
  lemma StepShifts(c: nat, b: Byte)
    ensures Step(c, b) == ShiftBits(Xor(c, b), 8)
  {
    hide Xor, ShiftBits;
    var x := Xor(c, b);
    var hi, lo := x / 256, x % 256;
    Pow32();
    XorHigh(hi, lo, 8);
    ShiftBitsLinear(hi * 256, lo, 8);
    ShiftedOut(hi, 8);
    XorComm(hi, Table(lo));
    HighPart(c, b);
  }

  /** A byte does not reach the bits above it. */
  lemma HighPart(c: nat, b: Byte)
    ensures Xor(c, b) / 256 == c / 256
  {
    hide Xor;
    var hi, lo := c / 256, c % 256;
    Pow32();
    XorHigh(hi, lo, 8);
    XorAssoc(hi * 256, lo, b);
    XorBound(lo, b, 8);
    XorHigh(hi, Xor(lo, b), 8);
    DivModBy(Xor(c, b), 256, hi, Xor(lo, b));
  }

  /** The whole message at once: the register is laid over its first bytes, and as many bits
      are shifted as the message has. */
  lemma {:induction false} FoldDivides(c: nat, bs: seq<Byte>)
    ensures Fold(c, bs) == ShiftBits(Xor(c, Number(bs)), 8 * |bs|)
    decreases |bs|
  {
    hide Xor, Step;
    if bs == [] {
      XorZero(c);
    } else {
      var b, rest := bs[0], bs[1..];
      var v := Number(rest);
      StepShifts(c, b);
      FoldDivides(Step(c, b), rest);
      Pow32();
      ShiftedOut(v, 8);
      ShiftBitsLinear(Xor(c, b), v * 256, 8);
      ShiftBitsMore(Xor(Xor(c, b), v * 256), 8, 8 * |rest|);
      XorAssoc(c, b, v * 256);
      XorComm(b, v * 256);
      XorHigh(v, b, 8);
    }
  }

  // ---- Errors ----------------------------------------------------------------------------------

  /** The register of a difference is the difference of the registers. */
  lemma {:induction false} FoldLinear(c: nat, d: nat, f: seq<Byte>, g: seq<Byte>)
    requires |f| == |g|
    ensures Fold(Xor(c, d), Diff(f, g)) == Xor(Fold(c, f), Fold(d, g))
    decreases |f|
  {
    hide Xor, ShiftBits, Step;
    if f != [] {
      var x, y := f[0], g[0];
      assert Diff(f, g)[0] == Xor(x, y) && Diff(f, g)[1..] == Diff(f[1..], g[1..]);
      StepShifts(c, x);
      StepShifts(d, y);
      StepShifts(Xor(c, d), Diff(f, g)[0]);
      XorSwap(c, d, x, y);
      ShiftBitsLinear(Xor(c, x), Xor(d, y), 8);
      FoldLinear(Step(c, x), Step(d, y), f[1..], g[1..]);
    }
  }

  /** f and g differ at most in the four bytes from i on. */
  ghost predicate DifferWithin(f: seq<Byte>, g: seq<Byte>, i: nat)
  {
    |f| == |g| && forall j :: 0 <= j < |f| && !(i <= j < i + 4) ==> f[j] == g[j]
  }

  /** No change within four adjacent bytes escapes the checksum. */
  lemma DetectsBursts(f: seq<Byte>, g: seq<Byte>, i: nat)
    requires DifferWithin(f, g, i) && f != g
    ensures Crc(0, f) != Crc(0, g)
  {
    hide Fold, Xor;
    var d := Diff(f, g);
    XorSelf(Xor(0, ONES));
    FoldLinear(Xor(0, ONES), Xor(0, ONES), f, g);
    DiffWithin(f, g, i);
    BurstNonZero(d, i);
    XorEqualIffZero(Fold(Xor(0, ONES), f), Fold(Xor(0, ONES), g));
    XorTwice(Fold(Xor(0, ONES), f), ONES);
    XorTwice(Fold(Xor(0, ONES), g), ONES);
  }

  lemma DiffWithin(f: seq<Byte>, g: seq<Byte>, i: nat)
    requires DifferWithin(f, g, i) && f != g
    ensures i < |f| && (forall j :: 0 <= j < |f| && !(i <= j < i + 4) ==> Diff(f, g)[j] == 0)
    ensures exists j :: 0 <= j < |f| && Diff(f, g)[j] != 0
  {
    hide Xor;
    var d := Diff(f, g);
    forall j | 0 <= j < |f| ensures d[j] == 0 <==> f[j] == g[j] { XorEqualIffZero(f[j], g[j]); }
    var j := Difference(f, g);
    assert d[j] != 0;
  }

  lemma {:induction false} NumberBound(bs: seq<Byte>)
    ensures Number(bs) < Pow2(8 * |bs|)
    ensures Number(bs) == 0 <==> forall j :: 0 <= j < |bs| ==> bs[j] == 0
    decreases |bs|
  {
    if bs != [] {
      NumberBound(bs[1..]);
      EightBits(8 * |bs| - 8);
      assert forall j :: 1 <= j < |bs| ==> bs[j] == bs[1..][j - 1];
    }
  }

  lemma EightBits(n: nat)
    ensures Pow2(n + 8) == 256 * Pow2(n)
  {
    assert Pow2(n + 2) == 4 * Pow2(n);
    assert Pow2(n + 4) == 4 * Pow2(n + 2);
    assert Pow2(n + 6) == 4 * Pow2(n + 4);
    assert Pow2(n + 8) == 4 * Pow2(n + 6);
  }

  lemma {:induction false} Pow2Mono(m: nat, n: nat)
    requires m <= n
    ensures Pow2(m) <= Pow2(n)
    decreases n
  {
    if m < n { Pow2Mono(m, n - 1); }
  }

  lemma {:induction false} NumberAppend(a: seq<Byte>, b: seq<Byte>)
    ensures Number(a + b) == Number(a) + Pow2(8 * |a|) * Number(b)
    decreases |a|
  {
    hide Pow2;
    if a == [] {
      assert a + b == b;
      PowZero();
    } else {
      var p, rest := Pow2(8 * |a| - 8), a[1..];
      assert (a + b)[0] == a[0] && (a + b)[1..] == rest + b;
      NumberAppend(rest, b);
      EightBits(8 * |a| - 8);
      Scaled(Number(rest), p, Number(b));
    }
  }

  lemma PowZero()
    ensures Pow2(0) == 1
  {
  }

  lemma Scaled(x: nat, p: nat, v: nat)
    ensures 256 * (x + p * v) == 256 * x + 256 * p * v
  {
  }

  /** Up to four adjacent bytes among zeros leave the register non-zero: a number below 2^32,
      divided further and further. */
  lemma BurstNonZero(d: seq<Byte>, i: nat)
    requires i < |d| && (forall j :: 0 <= j < |d| && !(i <= j < i + 4) ==> d[j] == 0)
    requires exists j :: 0 <= j < |d| && d[j] != 0
    ensures Fold(0, d) != 0
  {
    hide *;
    var end := if i + 4 < |d| then i + 4 else |d|;
    var a, m, z := d[..i], d[i..end], d[end..];
    Three(d, i, end);
    InTheMiddle(d, i, end);
    FoldAppend(0, a, m + z);
    ZeroFold(a);
    ShortFold(m, z);
  }

  lemma Three(d: seq<Byte>, i: nat, end: nat)
    requires i <= end <= |d|
    ensures d == d[..i] + (d[i..end] + d[end..])
  {
  }

  /** All that is not zero lies between i and end. */
  lemma InTheMiddle(d: seq<Byte>, i: nat, end: nat)
    requires i <= end <= |d| && (forall j :: 0 <= j < |d| && !(i <= j < end) ==> d[j] == 0)
    ensures forall k :: 0 <= k < |d[..i]| ==> d[..i][k] == 0
    ensures forall k :: 0 <= k < |d[end..]| ==> d[end..][k] == 0
    ensures (exists j :: 0 <= j < |d| && d[j] != 0) ==> exists k :: 0 <= k < |d[i..end]| && d[i..end][k] != 0
  {
    if j :| 0 <= j < |d| && d[j] != 0 { assert d[i..end][j - i] == d[j]; }
  }

  lemma ZeroFold(a: seq<Byte>)
    requires forall j :: 0 <= j < |a| ==> a[j] == 0
    ensures Fold(0, a) == 0
  {
    hide Fold, ShiftBits, Xor, Pow2;
    NumberBound(a);
    FoldDivides(0, a);
    XorZero(0);
    ZeroShifts(8 * |a|);
  }

  lemma ShortFold(m: seq<Byte>, z: seq<Byte>)
    requires |m| <= 4 && (exists j :: 0 <= j < |m| && m[j] != 0) && forall j :: 0 <= j < |z| ==> z[j] == 0
    ensures Fold(0, m + z) != 0
  {
    hide Fold, ShiftBits, Xor, Pow2, Number;
    NumberBound(m);
    NumberBound(z);
    NumberAppend(m, z);
    Pow2Mono(8 * |m|, 32);
    FoldDivides(0, m + z);
    XorZero(Number(m));
    ShiftBitsNonZero(Number(m), 8 * |m + z|);
  }

  lemma {:induction false} ZeroShifts(n: nat)
    ensures ShiftBits(0, n) == 0
    decreases n
  {
    if n > 0 { ZeroShifts(n - 1); }
  }

  // ---- The check value ---------------------------------------------------------------------------

  /** w bits, and what is above them. */
  lemma Field(f: nat, x: nat, flip: bool, mask: nat, w: nat)
    requires f < Pow2(w)
    ensures Xor(f + Pow2(w) * x, (if flip then Pow2(w) - 1 else 0) + Pow2(w) * mask)
         == (if flip then Pow2(w) - 1 - f else f) + Pow2(w) * Xor(x, mask)
  {
    hide Xor, Pow2;
    var p := Pow2(w);
    var m := if flip then p - 1 else 0;
    XorHigh(x, f, w);
    XorHigh(mask, m, w);
    XorSwap(x * p, f, mask * p, m);
    XorScaled(x, mask, w);
    XorBound(f, m, w);
    XorHigh(Xor(x, mask), Xor(f, m), w);
    XorZero(f);
    XorOnes(f, w);
    XorComm(f, m);
    DivModBy(f, p, 0, f);
  }

  lemma {:induction false} XorScaled(a: nat, b: nat, k: nat)
    ensures Xor(a * Pow2(k), b * Pow2(k)) == Xor(a, b) * Pow2(k)
    decreases k
  {
    hide Xor;
    if k > 0 {
      var p := Pow2(k - 1);
      XorScaled(2 * a, 2 * b, k - 1);
      XorDoubles(a, b);
      Reassociate(a, p);
      Reassociate(b, p);
      Reassociate(Xor(a, b), p);
    }
  }

  lemma Reassociate(a: nat, p: nat)
    ensures 2 * a * p == a * (2 * p)
  {
  }

  /** A number by runs of 3, 1, 2, 1, 2, 1 and 3 bits and what is above, lowest first. */
  function Top(b4: int, a4: int, b5: int, a5: int, b6: int, a6: int, b7: int, a7: int): int
  {
    b4 + 8 * (a4 + 2 * (b5 + 4 * (a5 + 2 * (b6 + 4 * (a6 + 2 * (b7 + 8 * a7))))))
  }

  /** The same with runs of 5, 1, 2, 2, 5, 1 and 3 bits below: the polynomial is all ones in
      the runs b1 to b7 and zero between them. */
  function Runs(a0: int, b1: int, a1: int, b2: int, a2: int, b3: int, a3: int, top: int): int
  {
    a0 + 32 * (b1 + 2 * (a1 + 4 * (b2 + 4 * (a2 + 32 * (b3 + 2 * (a3 + 8 * top))))))
  }

  lemma FlipTop(b4: nat, a4: nat, b5: nat, a5: nat, b6: nat, a6: nat, b7: nat, a7: nat)
    requires b4 < 8 && a4 < 2 && b5 < 4 && a5 < 2 && b6 < 4 && a6 < 2 && b7 < 8
    ensures Xor(Top(b4, a4, b5, a5, b6, a6, b7, a7), 0x1DB7)
         == Top(7 - b4, a4, 3 - b5, a5, 3 - b6, a6, 7 - b7, a7)
  {
    hide Xor, Pow2;
    Widths();
    XorZero(a7);
    Field(b7, a7, true, 0x0, 3);
    var x13: nat := b7 + 8 * a7;
    Field(a6, x13, false, 0x7, 1);
    var x12: nat := a6 + 2 * x13;
    Field(b6, x12, true, 0xE, 2);
    var x11: nat := b6 + 4 * x12;
    Field(a5, x11, false, 0x3B, 1);
    var x10: nat := a5 + 2 * x11;
    Field(b5, x10, true, 0x76, 2);
    var x9: nat := b5 + 4 * x10;
    Field(a4, x9, false, 0x1DB, 1);
    var x8: nat := a4 + 2 * x9;
    Field(b4, x8, true, 0x3B6, 3);
  }

  lemma FlipRuns(a0: nat, b1: nat, a1: nat, b2: nat, a2: nat, b3: nat, a3: nat, x7: nat, y7: nat)
    requires a0 < 32 && b1 < 2 && a1 < 4 && b2 < 4 && a2 < 32 && b3 < 2 && a3 < 8 && Xor(x7, 0x1DB7) == y7
    ensures Xor(Runs(a0, b1, a1, b2, a2, b3, a3, x7), POLY) == Runs(a0, 1 - b1, a1, 3 - b2, a2, 1 - b3, a3, y7)
  {
    hide Xor, Pow2;
    Widths();
    Field(a3, x7, false, 0x1DB7, 3);
    var x6: nat := a3 + 8 * x7;
    Field(b3, x6, true, 0xEDB8, 1);
    var x5: nat := b3 + 2 * x6;
    Field(a2, x5, false, 0x1DB71, 5);
    var x4: nat := a2 + 32 * x5;
    Field(b2, x4, true, 0x3B6E20, 2);
    var x3: nat := b2 + 4 * x4;
    Field(a1, x3, false, 0xEDB883, 2);
    var x2: nat := a1 + 4 * x3;
    Field(b1, x2, true, 0x3B6E20C, 1);
    var x1: nat := b1 + 2 * x2;
    Field(a0, x1, false, 0x76DC419, 5);
  }

  /** An odd register: shifted, and the bits of the polynomial flipped. */
  lemma Odd(a0: nat, b1: nat, a1: nat, b2: nat, a2: nat, b3: nat, a3: nat,
            b4: nat, a4: nat, b5: nat, a5: nat, b6: nat, a6: nat, b7: nat, a7: nat)
    requires a0 < 32 && b1 < 2 && a1 < 4 && b2 < 4 && a2 < 32 && b3 < 2 && a3 < 8
    requires b4 < 8 && a4 < 2 && b5 < 4 && a5 < 2 && b6 < 4 && a6 < 2 && b7 < 8
    ensures 0 <= Runs(a0, b1, a1, b2, a2, b3, a3, Top(b4, a4, b5, a5, b6, a6, b7, a7))
    ensures ShiftBit(2 * Runs(a0, b1, a1, b2, a2, b3, a3, Top(b4, a4, b5, a5, b6, a6, b7, a7)) + 1)
         == Runs(a0, 1 - b1, a1, 3 - b2, a2, 1 - b3, a3, Top(7 - b4, a4, 3 - b5, a5, 3 - b6, a6, 7 - b7, a7))
  {
    hide Xor;
    FlipTop(b4, a4, b5, a5, b6, a6, b7, a7);
    var top := Top(b4, a4, b5, a5, b6, a6, b7, a7);
    FlipRuns(a0, b1, a1, b2, a2, b3, a3, top, Xor(top, 0x1DB7));
  }

  lemma Widths()
    ensures Pow2(1) == 2 && Pow2(2) == 4 && Pow2(3) == 8 && Pow2(5) == 32
  {
  }

  lemma Even(d: nat)
    ensures ShiftBit(2 * d) == d
  {
    hide Xor;
  }

  lemma Eight(a: nat, b: nat, c: nat, d: nat, e: nat, f: nat, g: nat, h: nat, i: nat)
    requires ShiftBit(a) == b && ShiftBit(b) == c && ShiftBit(c) == d && ShiftBit(d) == e
    requires ShiftBit(e) == f && ShiftBit(f) == g && ShiftBit(g) == h && ShiftBit(h) == i
    ensures ShiftBits(a, 8) == i
  {
    hide ShiftBit;
    assert ShiftBits(a, 8) == ShiftBits(c, 6) == ShiftBits(e, 4) == ShiftBits(g, 2) == i;
  }

  lemma CheckA()
    ensures ShiftBits(0x3938373635CBCCCDCE, 8) == 0x393837364917237A
  {
    hide ShiftBit, ShiftBits;
    Even(0x1C9C1B9B1AE5E666E7);
    Odd(19, 1, 1, 3, 12, 0, 3, 6, 1, 1, 1, 0, 1, 3, 61439069581);
    Odd(9, 1, 0, 0, 22, 1, 5, 4, 0, 3, 1, 3, 0, 6, 30719534790);
    Odd(4, 0, 2, 1, 11, 1, 6, 1, 0, 2, 0, 0, 1, 0, 15359767395);
    Even(0x1C9C1B9B1FE5B1752);
    Even(0xE4E0DCD8FF2D8BA9);
    Odd(20, 0, 3, 1, 17, 1, 6, 2, 0, 3, 1, 3, 1, 3, 1919970924);
    Even(0x393837364917237A);
    Eight(0x3938373635CBCCCDCE, 0x1C9C1B9B1AE5E666E7, 0xE4E0DCD8D9F4BB053, 0x72706E6C6221D5B09, 0x393837363FCB62EA4,
          0x1C9C1B9B1FE5B1752, 0xE4E0DCD8FF2D8BA9, 0x72706E6C922E46F4, 0x393837364917237A);
  }

  lemma CheckB()
    ensures ShiftBits(0x393837364917237A, 8) == 0x39383786998F01
  {
    hide ShiftBit, ShiftBits;
    Even(0x1C9C1B9B248B91BD);
    Odd(30, 0, 3, 0, 18, 1, 5, 0, 1, 0, 1, 0, 1, 4, 239996365);
    Even(0x72706E6BFFEA5FF);
    Odd(31, 1, 3, 2, 20, 0, 7, 7, 1, 3, 1, 3, 1, 2, 59999091);
    Odd(15, 1, 3, 0, 26, 1, 3, 4, 0, 2, 0, 2, 1, 6, 29999545);
    Odd(7, 1, 3, 1, 13, 1, 5, 1, 1, 0, 1, 2, 1, 4, 14999772);
    Odd(3, 1, 1, 3, 6, 1, 2, 7, 1, 3, 1, 2, 1, 1, 7499886);
    Odd(1, 1, 0, 0, 3, 0, 1, 4, 0, 2, 1, 2, 0, 3, 3749943);
    Eight(0x393837364917237A, 0x1C9C1B9B248B91BD, 0xE4E0DCD7FFD4BFE, 0x72706E6BFFEA5FF, 0x3938373B247D1DF,
          0x1C9C1B9349B6BCF, 0xE4E0DC77F536C7, 0x72706ED6421843, 0x39383786998F01);
  }

  lemma CheckC()
    ensures ShiftBits(0x39383786998F01, 8) == 0x39384081A919
  {
    hide ShiftBit, ShiftBits;
    Odd(0, 0, 2, 3, 17, 1, 4, 1, 1, 2, 1, 0, 0, 6, 1874971);
    Even(0xE4E0D977A2250);
    Even(0x72706CBBD1128);
    Even(0x3938365DE8894);
    Even(0x1C9C1B2EF444A);
    Even(0xE4E0D977A225);
    Odd(18, 0, 0, 1, 20, 1, 3, 7, 0, 1, 0, 3, 0, 3, 29296);
    Even(0x39384081A919);
    Eight(0x39383786998F01, 0x1C9C1B2EF444A0, 0xE4E0D977A2250, 0x72706CBBD1128, 0x3938365DE8894,
          0x1C9C1B2EF444A, 0xE4E0D977A225, 0x727081035232, 0x39384081A919);
  }

  lemma CheckD()
    ensures ShiftBits(0x39384081A919, 8) == 0x395C2B2969
  {
    hide ShiftBit, ShiftBits;
    Odd(12, 0, 2, 0, 21, 1, 0, 0, 1, 0, 0, 0, 0, 1, 7324);
    Even(0xE4E66FC2BD6);
    Even(0x727337E15EB);
    Odd(21, 1, 3, 2, 2, 0, 7, 7, 0, 3, 0, 2, 1, 4, 915);
    Odd(10, 1, 3, 0, 17, 1, 3, 0, 0, 0, 1, 2, 1, 5, 457);
    Even(0xE4ABDDA3E5);
    Odd(18, 1, 3, 1, 20, 1, 6, 5, 1, 3, 0, 1, 1, 2, 114);
    Even(0x395C2B2969);
    Eight(0x39384081A919, 0x1C9CCDF857AC, 0xE4E66FC2BD6, 0x727337E15EB, 0x393740789D5,
          0x1C957BB47CA, 0xE4ABDDA3E5, 0x72B85652D2, 0x395C2B2969);
  }

  lemma CheckE()
    ensures ShiftBits(0x395C2B2969, 8) == 0xD32F2D5
  {
    hide ShiftBit, ShiftBits;
    Odd(20, 1, 2, 0, 5, 1, 5, 2, 0, 0, 1, 3, 0, 5, 28);
    Even(0xE21D68BCA);
    Even(0x710EB45E5);
    Odd(18, 1, 3, 2, 8, 1, 5, 6, 1, 0, 0, 2, 0, 4, 3);
    Even(0x1B2E690E9);
    Odd(20, 1, 1, 0, 18, 0, 3, 6, 1, 2, 0, 2, 1, 6, 0);
    Even(0x1A65E5AA);
    Even(0xD32F2D5);
    Eight(0x395C2B2969, 0x1C43AD1794, 0xE21D68BCA, 0x710EB45E5, 0x365CD21D2,
          0x1B2E690E9, 0x34CBCB54, 0x1A65E5AA, 0xD32F2D5);
  }

  lemma CheckF()
    ensures ShiftBits(0xD32F2D5, 8) == 0xF6B414A9
  {
    hide ShiftBit, ShiftBits;
    Odd(10, 1, 1, 1, 30, 0, 1, 3, 0, 1, 1, 1, 0, 0, 0);
    Even(0x7590FD25);
    Odd(18, 0, 2, 2, 31, 0, 0, 1, 1, 1, 1, 2, 1, 1, 0);
    Even(0x6BB87ED9);
    Odd(12, 1, 1, 3, 15, 0, 4, 3, 1, 3, 0, 1, 1, 1, 0);
    Even(0x6C325E26);
    Even(0x36192F13);
    Odd(9, 0, 2, 3, 5, 1, 4, 1, 0, 2, 1, 2, 1, 0, 0);
    Eight(0xD32F2D5, 0xEB21FA4A, 0x7590FD25, 0xD770FDB2, 0x6BB87ED9,
          0xD864BC4C, 0x6C325E26, 0x36192F13, 0xF6B414A9);
  }

  lemma CheckG()
    ensures ShiftBits(0xF6B414A9, 8) == 0xAFFCAF58
  {
    hide ShiftBit, ShiftBits;
    Odd(20, 0, 1, 2, 2, 0, 2, 3, 1, 2, 1, 2, 1, 3, 0);
    Even(0x4B7144BA);
    Even(0x25B8A25D);
    Odd(14, 1, 0, 1, 20, 0, 4, 3, 1, 1, 1, 0, 1, 0, 0);
    Even(0x7FB26907);
    Odd(3, 0, 2, 0, 13, 0, 1, 3, 1, 3, 1, 3, 1, 1, 0);
    Odd(17, 0, 3, 3, 22, 1, 0, 6, 0, 2, 0, 2, 0, 3, 0);
    Odd(24, 1, 1, 0, 11, 0, 4, 0, 1, 0, 1, 0, 0, 2, 0);
    Eight(0xF6B414A9, 0x96E28974, 0x4B7144BA, 0x25B8A25D, 0xFF64D20E,
          0x7FB26907, 0xD261B7A3, 0x848858F1, 0xAFFCAF58);
  }

  lemma CheckH()
    ensures ShiftBits(0xAFFCAF58, 8) == 0x651F2569
  {
    hide ShiftBit, ShiftBits;
    Even(0x57FE57AC);
    Even(0x2BFF2BD6);
    Even(0x15FF95EB);
    Odd(21, 1, 3, 2, 18, 1, 7, 7, 1, 1, 1, 2, 0, 0, 0);
    Odd(10, 1, 3, 0, 9, 1, 3, 4, 0, 3, 1, 0, 1, 3, 0);
    Even(0x4F0D93E5);
    Odd(18, 1, 3, 1, 18, 1, 6, 0, 0, 3, 1, 1, 0, 1, 0);
    Even(0x651F2569);
    Eight(0xAFFCAF58, 0x57FE57AC, 0x2BFF2BD6, 0x15FF95EB, 0xE74749D5,
          0x9E1B27CA, 0x4F0D93E5, 0xCA3E4AD2, 0x651F2569);
  }

  lemma CheckI()
    ensures ShiftBits(0x651F2569, 8) == 0x340BC6D9
  {
    hide ShiftBit, ShiftBits;
    Odd(20, 1, 2, 2, 4, 1, 7, 1, 0, 1, 1, 0, 1, 1, 0);
    Even(0x6F9B88CA);
    Even(0x37CDC465);
    Odd(18, 1, 0, 2, 24, 1, 6, 4, 1, 3, 1, 2, 1, 0, 0);
    Even(0x7B2F3089);
    Odd(4, 0, 1, 0, 6, 1, 7, 2, 0, 3, 0, 3, 1, 1, 0);
    Even(0x68178DB2);
    Even(0x340BC6D9);
    Eight(0x651F2569, 0xDF371194, 0x6F9B88CA, 0x37CDC465, 0xF65E6112,
          0x7B2F3089, 0xD02F1B64, 0x68178DB2, 0x340BC6D9);
  }

  lemma Shifted()
    ensures ShiftBits(0x3938373635CBCCCDCE, 72) == 0x340BC6D9
  {
    hide ShiftBits;
    CheckA();
    CheckB();
    ShiftBitsMore(0x3938373635CBCCCDCE, 8, 8);
    CheckC();
    ShiftBitsMore(0x3938373635CBCCCDCE, 16, 8);
    CheckD();
    ShiftBitsMore(0x3938373635CBCCCDCE, 24, 8);
    CheckE();
    ShiftBitsMore(0x3938373635CBCCCDCE, 32, 8);
    CheckF();
    ShiftBitsMore(0x3938373635CBCCCDCE, 40, 8);
    CheckG();
    ShiftBitsMore(0x3938373635CBCCCDCE, 48, 8);
    CheckH();
    ShiftBitsMore(0x3938373635CBCCCDCE, 56, 8);
    CheckI();
    ShiftBitsMore(0x3938373635CBCCCDCE, 64, 8);
  }

  /** The published check value of CRC-32: the nine digits "123456789". */
  lemma CheckValue()
    ensures Crc(0, [0x31, 0x32, 0x33, 0x34, 0x35, 0x36, 0x37, 0x38, 0x39]) == 0xCBF43926
  {
    var digits: seq<Byte> := [0x31, 0x32, 0x33, 0x34, 0x35, 0x36, 0x37, 0x38, 0x39];
    hide Xor, Fold, ShiftBits, Number, Pow2;
    Digits();
    Pow32();
    XorZero(ONES);
    FoldDivides(ONES, digits);
    XorOnes(0x393837363534333231, 32);
    Shifted();
    XorOnes(0x340BC6D9, 32);
    XorComm(0x340BC6D9, ONES);
  }

  lemma Digits()
    ensures Number([0x31, 0x32, 0x33, 0x34, 0x35, 0x36, 0x37, 0x38, 0x39]) == 0x393837363534333231
  {
    var s: seq<Byte> := [0x31, 0x32, 0x33, 0x34, 0x35, 0x36, 0x37, 0x38, 0x39];
    assert s[8..][1..] == [] && Number(s[8..]) == 0x39;
    assert s[7..][1..] == s[8..] && Number(s[7..]) == 0x3938;
    assert s[6..][1..] == s[7..] && Number(s[6..]) == 0x393837;
    assert s[5..][1..] == s[6..] && Number(s[5..]) == 0x39383736;
    assert s[4..][1..] == s[5..] && Number(s[4..]) == 0x3938373635;
    assert s[3..][1..] == s[4..] && Number(s[3..]) == 0x393837363534;
    assert s[2..][1..] == s[3..] && Number(s[2..]) == 0x39383736353433;
    assert s[1..][1..] == s[2..] && Number(s[1..]) == 0x3938373635343332;
  }
}
