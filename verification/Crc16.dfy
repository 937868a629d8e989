/** CRC-16/CCITT of the boot-ROM frames (src/defib/protocol/crc.py): polynomial
    0x1021, message bits shifted in at the low end, two zero bytes to finish. */
module Crc16 {
  import opened Bits
  import opened Differences
  import Crc32

  const POLY := 0x1021
  const TOP := 0x8000
  const REGS := 0x1_0000

  /** The register's polynomial feedback for its top bit. */
  function Feedback(top: nat): nat
  {
    if top == 1 then POLY else 0
  }

  /** One zero bit shifted into the 16-bit register. */
  function Shift(c: nat): nat
  {
    Xor(2 * c % REGS, Feedback(c / TOP))
  }

  function Shifts(c: nat, n: nat): nat
    decreases n
  {
    if n == 0 then c else Shifts(Shift(c), n - 1)
  }

  /** Entry i of the lookup table. */
  function Entry(i: nat): nat
  {
    Shifts(i * 256, 8)
  }

  /** One byte through the 16-bit register. */
  function RegStep(c: nat, b: Byte): nat
  {
    Xor(Shifts(c, 8), b)
  }

  function RegFold(c: nat, bs: seq<Byte>): nat
    decreases |bs|
  {
    if bs == [] then c else RegFold(RegStep(c, bs[0]), bs[1..])
  }

  /** One byte through Python's accumulator, which is never masked. */
  function PyStep(c: nat, b: Byte): nat
  {
    Xor(c * 256 + b, Entry(c / 256 % 256))
  }

  // ---- Widths ---------------------------------------------------------------------

  lemma Powers()
    ensures Pow2(8) == 256 && Pow2(15) == TOP && Pow2(16) == REGS
  {
    Crc32.Pow32();
    assert Pow2(16) == 2 * Pow2(15);
  }

  lemma ShiftWidth(c: nat)
    ensures Shift(c) < REGS
  {
    Powers();
    XorBound(2 * c % REGS, Feedback(c / TOP), 16);
  }

  lemma {:induction false} ShiftsWidth(c: nat, n: nat)
    requires c < REGS
    ensures Shifts(c, n) < REGS
    decreases n
  {
    if n > 0 {
      ShiftWidth(c);
      ShiftsWidth(Shift(c), n - 1);
    }
  }

  lemma RegStepWidth(c: nat, b: Byte)
    requires c < REGS
    ensures RegStep(c, b) < REGS
  {
    Powers();
    ShiftsWidth(c, 8);
    XorBound(Shifts(c, 8), b, 16);
  }

  lemma {:induction false} RegFoldWidth(c: nat, bs: seq<Byte>)
    requires c < REGS
    ensures RegFold(c, bs) < REGS
    decreases |bs|
  {
    if bs != [] {
      RegStepWidth(c, bs[0]);
      RegFoldWidth(RegStep(c, bs[0]), bs[1..]);
    }
  }

  // ---- The shift register is linear -------------------------------------------------

  /** The top bit of an exclusive or. */
  lemma XorTop(a: nat, b: nat)
    requires a < REGS && b < REGS
    ensures Xor(a, b) / TOP == if a / TOP == b / TOP then 0 else 1
  {
    hide Xor;
    Powers();
    var ta, la, tb, lb := a / TOP, a % TOP, b / TOP, b % TOP;
    XorHigh(ta, la, 15);
    XorHigh(tb, lb, 15);
    XorSwap(ta * TOP, la, tb * TOP, lb);
    XorSelf(TOP);
    XorZero(TOP);
    XorZero(0);
    XorBound(la, lb, 15);
    XorHigh(if ta == tb then 0 else 1, Xor(la, lb), 15);
  }

  lemma ShiftLinear(a: nat, b: nat)
    requires a < REGS && b < REGS
    ensures Shift(Xor(a, b)) == Xor(Shift(a), Shift(b))
  {
    Powers();
    XorDoubles(a, b);
    XorMod(2 * a, 2 * b, 16);
    XorTop(a, b);
    XorSelf(POLY);
    XorZero(POLY);
    XorZero(0);
    XorSwap(2 * a % REGS, Feedback(a / TOP), 2 * b % REGS, Feedback(b / TOP));
  }

  lemma {:induction false} ShiftsLinear(a: nat, b: nat, n: nat)
    requires a < REGS && b < REGS
    ensures Shifts(Xor(a, b), n) == Xor(Shifts(a, n), Shifts(b, n))
    decreases n
  {
    hide Shift;
    if n > 0 {
      ShiftLinear(a, b);
      ShiftWidth(a);
      ShiftWidth(b);
      ShiftsLinear(Shift(a), Shift(b), n - 1);
    }
  }

  /** Nothing but zero shifts to zero: the feedback is odd, the shifted part even. */
  lemma ShiftNonZero(c: nat)
    requires 0 < c < REGS
    ensures Shift(c) != 0
  {
    hide Xor;
    XorZero(2 * c % REGS);
    XorEqualIffZero(2 * c % REGS, POLY);
  }

  lemma {:induction false} ShiftsNonZero(c: nat, n: nat)
    requires 0 < c < REGS
    ensures Shifts(c, n) != 0
    decreases n
  {
    hide Shift;
    if n > 0 {
      ShiftNonZero(c);
      ShiftWidth(c);
      ShiftsNonZero(Shift(c), n - 1);
    }
  }

  /** A byte in the low half moves up unchanged. */
  lemma {:induction false} ShiftsLow(c: nat, n: nat)
    requires c * Pow2(n) < REGS
    ensures Shifts(c, n) == c * Pow2(n)
    decreases n
  {
    hide Shift;
    if n > 0 {
      var p := Pow2(n - 1);
      assert c * Pow2(n) == 2 * c * p;
      MulAtLeastNat(2 * c, p);
      ShiftLow(c);
      ShiftsLow(2 * c, n - 1);
    } else {
      assert c * Pow2(0) == c;
    }
  }

  lemma ShiftLow(c: nat)
    requires 2 * c < REGS
    ensures Shift(c) == 2 * c
  {
    hide Xor;
    XorZero(2 * c);
  }

  lemma MulAtLeastNat(a: nat, p: nat)
    requires p > 0
    ensures a <= a * p
  {
  }

  lemma ShiftsByte(b: Byte)
    ensures Shifts(b, 8) == b * 256
  {
    Powers();
    ShiftsLow(b, 8);
  }

  // ---- The accumulator and the register ---------------------------------------------

  /** The table form of the register step. */
  lemma RegStepByTable(c: nat, b: Byte)
    requires c < REGS
    ensures RegStep(c, b) == Xor((c * 256 + b) % REGS, Entry(c / 256))
  {
    hide Shift, Shifts, Xor;
    var hi, lo: Byte := c / 256, c % 256;
    Powers();
    XorHigh(hi, lo, 8);
    ShiftsLinear(hi * 256, lo, 8);
    ShiftsByte(lo);
    XorHigh(lo, b, 8);
    var e, x: nat := Entry(hi), lo * 256;
    XorComm(e, x);
    XorAssoc(x, e, b);
    XorComm(e, b);
    XorAssoc(x, b, e);
    assert (c * 256 + b) % REGS == x + b;
  }

  /** Python's accumulator agrees with the 16-bit register after every byte. */
  lemma PyStepAgrees(c: nat, b: Byte)
    ensures PyStep(c, b) % REGS == RegStep(c % REGS, b)
  {
    hide Entry, RegStep, Xor;
    Powers();
    var i := c / 256 % 256;
    EntryWidth(i);
    XorMod(c * 256 + b, Entry(i), 16);
    RegStepByTable(c % REGS, b);
    HighByte(c, b);
  }

  lemma EntryWidth(i: nat)
    requires i < 256
    ensures Entry(i) < REGS && Entry(i) % REGS == Entry(i)
  {
    hide Shifts;
    ShiftsWidth(i * 256, 8);
  }

  lemma HighByte(c: nat, b: Byte)
    ensures c % REGS / 256 == c / 256 % 256
    ensures (c * 256 + b) % REGS == (c % REGS * 256 + b) % REGS
  {
    var q, r := c / REGS, c % REGS;
    DivModBy(c / 256, 256, q, r / 256);
    var x := r * 256 + b;
    DivModBy(c * 256 + b, REGS, q * 256 + x / REGS, x % REGS);
  }

  lemma {:induction false} RegFoldAppend(c: nat, a: seq<Byte>, b: seq<Byte>)
    ensures RegFold(c, a + b) == RegFold(RegFold(c, a), b)
    decreases |a|
  {
    if a == [] {
      assert a + b == b;
    } else {
      assert (a + b)[1..] == a[1..] + b;
      RegFoldAppend(RegStep(c, a[0]), a[1..], b);
    }
  }

  /** The checksum: data and two zero bytes through the register. */
  function Crc(data: seq<Byte>, seed: nat): nat
  {
    RegFold(seed % REGS, data + [0, 0])
  }

  lemma CrcWidth(data: seq<Byte>, seed: nat)
    ensures Crc(data, seed) < REGS
  {
    RegFoldWidth(seed % REGS, data + [0, 0]);
  }

  /** append_crc. */
  function Append(data: seq<Byte>): seq<Byte>
  {
    var crc := Crc(data, 0);
    data + [crc / 256 % 256, crc % 256]
  }

  /** verify_crc. */
  predicate Verify(frame: seq<Byte>)
  {
    |frame| >= 3 &&
    var hi: int, lo: int := frame[|frame| - 2], frame[|frame| - 1];
    Crc(frame[..|frame| - 2], 0) == hi * 256 + lo
  }

  /** Every appended frame verifies, except the empty one. */
  lemma AppendVerifies(data: seq<Byte>)
    ensures Verify(Append(data)) <==> data != []
  {
    var f := Append(data);
    CrcWidth(data, 0);
    assert f[..|f| - 2] == data;
  }

  /** A frame verifies exactly when all of it leaves the register at zero. */
  lemma ValidIffZero(frame: seq<Byte>)
    requires |frame| >= 3
    ensures Verify(frame) <==> RegFold(0, frame) == 0
  {
    hide Xor, Shifts, RegFold;
    var data, hi, lo := frame[..|frame| - 2], frame[|frame| - 2], frame[|frame| - 1];
    assert frame == data + [hi, lo];
    var r := RegFold(0, data);
    RegFoldWidth(0, data);
    RegFoldAppend(0, data, [hi, lo]);
    RegFoldAppend(0, data, [0, 0]);
    TwoBytes(r, hi, lo);
    TwoBytes(r, 0, 0);
    var h: int, l: int := hi, lo;
    XorZero(Shifts(r, 16));
    XorEqualIffZero(Shifts(r, 16), h * 256 + l);
  }

  /** Two more bytes: 16 shifts, then the bytes come in. */
  lemma TwoBytes(r: nat, hi: Byte, lo: Byte)
    requires r < REGS
    ensures var h: int, l: int := hi, lo; RegFold(r, [hi, lo]) == Xor(Shifts(r, 16), h * 256 + l)
  {
    hide Shift, Shifts, Xor;
    var h: int, l: int := hi, lo;
    var s := Shifts(r, 8);
    assert RegFold(r, [hi, lo]) == RegStep(RegStep(r, hi), lo) by {
      assert [hi, lo][1..] == [lo] && [lo][1..] == [];
      assert RegFold(RegStep(r, hi), [lo]) == RegFold(RegStep(RegStep(r, hi), lo), []);
    }
    ShiftsWidth(r, 8);
    ShiftsLinear(s, hi, 8);
    ShiftsByte(hi);
    ShiftsTwice(r, 8, 8);
    XorAssoc(Shifts(s, 8), h * 256, l);
    Powers();
    XorHigh(h, l, 8);
  }

  lemma {:induction false} ShiftsTwice(c: nat, n: nat, m: nat)
    ensures Shifts(Shifts(c, n), m) == Shifts(c, n + m)
    decreases n
  {
    if n > 0 { ShiftsTwice(Shift(c), n - 1, m); }
  }

  // ---- Errors -----------------------------------------------------------------------

  lemma {:induction false} FoldLinear(c: nat, d: nat, f: seq<Byte>, g: seq<Byte>)
    requires c < REGS && d < REGS && |f| == |g|
    ensures RegFold(Xor(c, d), Diff(f, g)) == Xor(RegFold(c, f), RegFold(d, g))
    decreases |f|
  {
    hide Shift, Shifts, Xor;
    if f != [] {
      var x, y := f[0], g[0];
      ShiftsLinear(c, d, 8);
      XorSwap(Shifts(c, 8), x, Shifts(d, 8), y);
      XorByte(x, y);
      XorSwap(Shifts(c, 8), Shifts(d, 8), x, y);
      assert Diff(f, g)[0] == Xor(x, y) && Diff(f, g)[1..] == Diff(f[1..], g[1..]);
      RegStepWidth(c, x);
      RegStepWidth(d, y);
      FoldLinear(RegStep(c, x), RegStep(d, y), f[1..], g[1..]);
    }
  }

  lemma {:induction false} FoldZeros(c: nat, bs: seq<Byte>)
    requires c < REGS && forall i :: 0 <= i < |bs| ==> bs[i] == 0
    ensures RegFold(c, bs) == 0 <==> c == 0
    decreases |bs|
  {
    hide Shift, Shifts, Xor;
    if bs != [] {
      XorZero(Shifts(c, 8));
      ShiftsWidth(c, 8);
      if c == 0 { ZeroShifts(8); } else { ShiftsNonZero(c, 8); }
      FoldZeros(RegStep(c, bs[0]), bs[1..]);
    }
  }

  lemma {:induction false} ZeroShifts(n: nat)
    ensures Shifts(0, n) == 0
    decreases n
  {
    XorZero(0);
    if n > 0 { ZeroShifts(n - 1); }
  }

  /** f and g differ in at most the two adjacent bytes i and i + 1. */
  ghost predicate DifferAt(f: seq<Byte>, g: seq<Byte>, i: nat)
  {
    |f| == |g| && forall j :: 0 <= j < |f| && j != i && j != i + 1 ==> f[j] == g[j]
  }

  /** Any change within one byte or two adjacent bytes of a valid frame, checksum bytes
      included, is rejected. */
  lemma DetectsAdjacent(f: seq<Byte>, g: seq<Byte>, i: nat)
    requires Verify(f) && DifferAt(f, g, i) && f != g
    ensures !Verify(g)
  {
    hide Verify;
    assert |f| >= 3 by { assert Verify(f); LongEnough(f); }
    var d := Diff(f, g);
    ValidIffZero(f);
    ValidIffZero(g);
    XorZero(0);
    FoldLinear(0, 0, f, g);
    XorZero(RegFold(0, g));
    DiffNonZero(f, g, i);
    BurstNonZero(d, i);
  }

  lemma LongEnough(f: seq<Byte>)
    requires Verify(f)
    ensures |f| >= 3
  {
  }

  lemma DiffNonZero(f: seq<Byte>, g: seq<Byte>, i: nat)
    requires DifferAt(f, g, i) && f != g
    ensures i < |f| && (forall j :: 0 <= j < |f| && j != i && j != i + 1 ==> Diff(f, g)[j] == 0)
    ensures Diff(f, g)[i] != 0 || (i + 1 < |f| && Diff(f, g)[i + 1] != 0)
  {
    var d := Diff(f, g);
    forall j | 0 <= j < |f| ensures d[j] == 0 <==> f[j] == g[j] { XorEqualIffZero(f[j], g[j]); }
    var j := Difference(f, g);
  }

  /** One or two adjacent non-zero bytes among zeros leave the register non-zero. */
  lemma BurstNonZero(d: seq<Byte>, i: nat)
    requires i < |d| && forall j :: 0 <= j < |d| && j != i && j != i + 1 ==> d[j] == 0
    requires d[i] != 0 || (i + 1 < |d| && d[i + 1] != 0)
    ensures RegFold(0, d) != 0
  {
    hide Shift, Shifts, RegStep;
    var end := if i + 1 < |d| then i + 2 else i + 1;
    var a, m, z := d[..i], d[i..end], d[end..];
    assert d == a + m + z;
    RegFoldAppend(0, a + m, z);
    RegFoldAppend(0, a, m);
    FoldZeros(0, a);
    if i + 1 < |d| {
      assert m == [d[i], d[i + 1]];
      TwoBytes(0, d[i], d[i + 1]);
      var h: int, l: int := d[i], d[i + 1];
      ZeroShifts(16);
      XorZero(h * 256 + l);
      FoldZeros(h * 256 + l, z);
    } else {
      assert m == [d[i]] && m[1..] == [];
      OneByte(d[i]);
      FoldZeros(d[i], z);
    }
  }

  lemma OneByte(b: Byte)
    ensures RegFold(0, [b]) == b
  {
    ZeroShifts(8);
    XorZero(b);
    assert [b][1..] == [];
    assert RegFold(RegStep(0, b), []) == RegStep(0, b);
  }
}
