/** The 256 entries of the lookup table in src/defib/protocol/crc.py are the ones the
    polynomial gives. */
module Crc16Table {
  import opened Bits
  import opened Crc16

  const ROW_0: seq<nat> := [0x0000, 0x1021, 0x2042, 0x3063, 0x4084, 0x50A5, 0x60C6, 0x70E7,
                          0x8108, 0x9129, 0xA14A, 0xB16B, 0xC18C, 0xD1AD, 0xE1CE, 0xF1EF]
  const ROW_1: seq<nat> := [0x1231, 0x0210, 0x3273, 0x2252, 0x52B5, 0x4294, 0x72F7, 0x62D6,
                          0x9339, 0x8318, 0xB37B, 0xA35A, 0xD3BD, 0xC39C, 0xF3FF, 0xE3DE]
  const ROW_2: seq<nat> := [0x2462, 0x3443, 0x0420, 0x1401, 0x64E6, 0x74C7, 0x44A4, 0x5485,
                          0xA56A, 0xB54B, 0x8528, 0x9509, 0xE5EE, 0xF5CF, 0xC5AC, 0xD58D]
  const ROW_3: seq<nat> := [0x3653, 0x2672, 0x1611, 0x0630, 0x76D7, 0x66F6, 0x5695, 0x46B4,
                          0xB75B, 0xA77A, 0x9719, 0x8738, 0xF7DF, 0xE7FE, 0xD79D, 0xC7BC]
  const ROW_4: seq<nat> := [0x48C4, 0x58E5, 0x6886, 0x78A7, 0x0840, 0x1861, 0x2802, 0x3823,
                          0xC9CC, 0xD9ED, 0xE98E, 0xF9AF, 0x8948, 0x9969, 0xA90A, 0xB92B]
  const ROW_5: seq<nat> := [0x5AF5, 0x4AD4, 0x7AB7, 0x6A96, 0x1A71, 0x0A50, 0x3A33, 0x2A12,
                          0xDBFD, 0xCBDC, 0xFBBF, 0xEB9E, 0x9B79, 0x8B58, 0xBB3B, 0xAB1A]
  const ROW_6: seq<nat> := [0x6CA6, 0x7C87, 0x4CE4, 0x5CC5, 0x2C22, 0x3C03, 0x0C60, 0x1C41,
                          0xEDAE, 0xFD8F, 0xCDEC, 0xDDCD, 0xAD2A, 0xBD0B, 0x8D68, 0x9D49]
  const ROW_7: seq<nat> := [0x7E97, 0x6EB6, 0x5ED5, 0x4EF4, 0x3E13, 0x2E32, 0x1E51, 0x0E70,
                          0xFF9F, 0xEFBE, 0xDFDD, 0xCFFC, 0xBF1B, 0xAF3A, 0x9F59, 0x8F78]
  const ROW_8: seq<nat> := [0x9188, 0x81A9, 0xB1CA, 0xA1EB, 0xD10C, 0xC12D, 0xF14E, 0xE16F,
                          0x1080, 0x00A1, 0x30C2, 0x20E3, 0x5004, 0x4025, 0x7046, 0x6067]
  const ROW_9: seq<nat> := [0x83B9, 0x9398, 0xA3FB, 0xB3DA, 0xC33D, 0xD31C, 0xE37F, 0xF35E,
                          0x02B1, 0x1290, 0x22F3, 0x32D2, 0x4235, 0x5214, 0x6277, 0x7256]
  const ROW_A: seq<nat> := [0xB5EA, 0xA5CB, 0x95A8, 0x8589, 0xF56E, 0xE54F, 0xD52C, 0xC50D,
                          0x34E2, 0x24C3, 0x14A0, 0x0481, 0x7466, 0x6447, 0x5424, 0x4405]
  const ROW_B: seq<nat> := [0xA7DB, 0xB7FA, 0x8799, 0x97B8, 0xE75F, 0xF77E, 0xC71D, 0xD73C,
                          0x26D3, 0x36F2, 0x0691, 0x16B0, 0x6657, 0x7676, 0x4615, 0x5634]
  const ROW_C: seq<nat> := [0xD94C, 0xC96D, 0xF90E, 0xE92F, 0x99C8, 0x89E9, 0xB98A, 0xA9AB,
                          0x5844, 0x4865, 0x7806, 0x6827, 0x18C0, 0x08E1, 0x3882, 0x28A3]
  const ROW_D: seq<nat> := [0xCB7D, 0xDB5C, 0xEB3F, 0xFB1E, 0x8BF9, 0x9BD8, 0xABBB, 0xBB9A,
                          0x4A75, 0x5A54, 0x6A37, 0x7A16, 0x0AF1, 0x1AD0, 0x2AB3, 0x3A92]
  const ROW_E: seq<nat> := [0xFD2E, 0xED0F, 0xDD6C, 0xCD4D, 0xBDAA, 0xAD8B, 0x9DE8, 0x8DC9,
                          0x7C26, 0x6C07, 0x5C64, 0x4C45, 0x3CA2, 0x2C83, 0x1CE0, 0x0CC1]
  const ROW_F: seq<nat> := [0xEF1F, 0xFF3E, 0xCF5D, 0xDF7C, 0xAF9B, 0xBFBA, 0x8FD9, 0x9FF8,
                          0x6E17, 0x7E36, 0x4E55, 0x5E74, 0x2E93, 0x3EB2, 0x0ED1, 0x1EF0]

  /** Row r of the table. */
  function Row(r: nat): (row: seq<nat>)
    requires r < 16
    ensures |row| == 16
  {
    match r
    case 0 => ROW_0
    case 1 => ROW_1
    case 2 => ROW_2
    case 3 => ROW_3
    case 4 => ROW_4
    case 5 => ROW_5
    case 6 => ROW_6
    case 7 => ROW_7
    case 8 => ROW_8
    case 9 => ROW_9
    case 10 => ROW_A
    case 11 => ROW_B
    case 12 => ROW_C
    case 13 => ROW_D
    case 14 => ROW_E
    case _ => ROW_F
  }

  /** CRC_TABLE[i]. */
  function Table(i: nat): nat
    requires i < 256
  {
    Row(i / 16)[i % 16]
  }

  /** An even x with the polynomial's bits 0, 5 and 12 flipped. */
  function Flipped(x: nat): int
  {
    x + 1 + (if x / 32 % 2 == 0 then 32 else -32) + (if x / 4096 % 2 == 0 then 4096 else -4096)
  }

  /** a and b are the entries 2i and 2i + 1 when e is entry i. */
  predicate Pair(e: nat, a: nat, b: nat)
  {
    var x := 2 * e % REGS;
    if e < TOP then a == x && b == Flipped(x) else a == Flipped(x) && b == x
  }

  predicate RowOk(half: seq<nat>, row: seq<nat>)
  {
    && |half| == 8 && |row| == 16
    && Pair(half[0], row[0], row[1]) && Pair(half[1], row[2], row[3])
    && Pair(half[2], row[4], row[5]) && Pair(half[3], row[6], row[7])
    && Pair(half[4], row[8], row[9]) && Pair(half[5], row[10], row[11])
    && Pair(half[6], row[12], row[13]) && Pair(half[7], row[14], row[15])
  }

  lemma RowPair(half: seq<nat>, row: seq<nat>, j: nat)
    requires RowOk(half, row) && j < 8
    ensures Pair(half[j], row[2 * j], row[2 * j + 1])
  {
    hide Pair;
    match j case 0 => case 1 => case 2 => case 3 => case 4 => case 5 => case 6 => case _ =>
  }

  lemma Row0() ensures RowOk(ROW_0[..8], ROW_0) { }
  lemma Row1() ensures RowOk(ROW_0[8..], ROW_1) { }
  lemma Row2() ensures RowOk(ROW_1[..8], ROW_2) { }
  lemma Row3() ensures RowOk(ROW_1[8..], ROW_3) { }
  lemma Row4() ensures RowOk(ROW_2[..8], ROW_4) { }
  lemma Row5() ensures RowOk(ROW_2[8..], ROW_5) { }
  lemma Row6() ensures RowOk(ROW_3[..8], ROW_6) { }
  lemma Row7() ensures RowOk(ROW_3[8..], ROW_7) { }
  lemma Row8() ensures RowOk(ROW_4[..8], ROW_8) { }
  lemma Row9() ensures RowOk(ROW_4[8..], ROW_9) { }
  lemma RowA() ensures RowOk(ROW_5[..8], ROW_A) { }
  lemma RowB() ensures RowOk(ROW_5[8..], ROW_B) { }
  lemma RowC() ensures RowOk(ROW_6[..8], ROW_C) { }
  lemma RowD() ensures RowOk(ROW_6[8..], ROW_D) { }
  lemma RowE() ensures RowOk(ROW_7[..8], ROW_E) { }
  lemma RowF() ensures RowOk(ROW_7[8..], ROW_F) { }

  lemma RowsOk(r: nat)
    requires r < 16
    ensures RowOk(if r % 2 == 0 then Row(r / 2)[..8] else Row(r / 2)[8..], Row(r))
  {
    hide RowOk;
    match r
    case 0 => Row0();
    case 1 => Row1();
    case 2 => Row2();
    case 3 => Row3();
    case 4 => Row4();
    case 5 => Row5();
    case 6 => Row6();
    case 7 => Row7();
    case 8 => Row8();
    case 9 => Row9();
    case 10 => RowA();
    case 11 => RowB();
    case 12 => RowC();
    case 13 => RowD();
    case 14 => RowE();
    case _ => RowF();
  }

  /** Consecutive entries come from the entry at half their index. */
  lemma TablePair(i: nat)
    requires i < 128
    ensures Pair(Table(i), Table(2 * i), Table(2 * i + 1))
  {
    hide Row, Pair, RowOk;
    var r, j := i / 8, i % 8;
    RowsOk(r);
    RowPair(if r % 2 == 0 then Row(r / 2)[..8] else Row(r / 2)[8..], Row(r), j);
    TableIndices(i);
  }

  lemma TableIndices(i: nat)
    requires i < 128
    ensures i / 16 == i / 8 / 2 && i % 16 == (if i / 8 % 2 == 0 then i % 8 else 8 + i % 8)
    ensures 2 * i / 16 == (2 * i + 1) / 16 == i / 8 && 2 * i % 16 == 2 * (i % 8) && (2 * i + 1) % 16 == 2 * (i % 8) + 1
  {
  }

  // ---- The polynomial's entries obey the same law ------------------------------------

  lemma FlippedIsXor(x: nat)
    requires x % 2 == 0
    ensures Flipped(x) == Xor(x, POLY)
  {
    hide Xor;
    Bits012();
    var y := Xor(x, 4096);
    var z := Xor(y, 32);
    XorBit(x, 12);
    XorBit(y, 5);
    XorBit(z, 0);
    SameBit5(x, y);
    LastBit(z);
    XorAssoc(x, 4096, 32);
    XorAssoc(x, 4128, 1);
  }

  lemma SameBit5(x: nat, y: nat)
    requires y == x + 4096 || x == y + 4096
    ensures y / 32 % 2 == x / 32 % 2 && y % 2 == x % 2
  {
    HigherBit(if y > x then x else y);
  }

  lemma HigherBit(x: nat)
    ensures (x + 4096) / 32 % 2 == x / 32 % 2 && (x + 4096) % 2 == x % 2
  {
    var q := x / 32;
    DivModBy(x + 4096, 32, q + 128, x % 32);
    DivModBy(q + 128, 2, q / 2 + 64, q % 2);
    DivModBy(x + 4096, 2, x / 2 + 2048, x % 2);
  }

  lemma LastBit(z: nat)
    ensures z / 1 % 2 == z % 2
  {
  }

  lemma Bits012()
    ensures Pow2(0) == 1 && Pow2(5) == 32 && Pow2(12) == 4096
    ensures Xor(4096, 32) == 4128 && Xor(4128, 1) == POLY
  {
    hide Xor;
    assert Pow2(12) == 16 * Pow2(8);
    XorBit(4096, 5);
    XorBit(4128, 0);
  }

  lemma EntryPair(i: nat)
    requires i < 128
    ensures Pair(Entry(i), Entry(2 * i), Entry(2 * i + 1))
  {
    hide Xor, Shifts, Flipped;
    var e := Entry(i);
    EntryWidth(i);
    var x := 2 * e % REGS;
    XorZero(2 * (i * 256));
    assert Shift(i * 256) == 2 * i * 256;
    ShiftsTwice(i * 256, 1, 8);
    ShiftsTwice(i * 256, 8, 1);
    OneShift(i * 256);
    OneShift(e);
    FlippedIsXor(x);
    XorZero(x);
    OddEntry(i);
    XorTwice(x, POLY);
    FlippedIsXor(x);
  }

  lemma OneShift(c: nat)
    ensures Shifts(c, 1) == Shift(c)
  {
    hide Shift;
    assert Shifts(c, 1) == Shifts(Shift(c), 0);
  }

  lemma OddEntry(i: nat)
    requires i < 128
    ensures Entry(2 * i + 1) == Xor(Entry(2 * i), POLY)
  {
    hide Xor, Shifts, Shift;
    Powers();
    var h := 2 * i * 256;
    XorHigh(i, 256, 9);
    assert Pow2(9) == 512;
    ShiftsLinear(h, 256, 8);
    EntryOne();
  }

  lemma EntryOne()
    ensures Shifts(256, 8) == POLY
  {
    hide Xor;
    Powers();
    ShiftsLow(256, 7);
    assert Pow2(7) == 128;
    ShiftsTwice(256, 7, 1);
    OneShift(TOP);
    XorZero(POLY);
  }

  /** Every entry of the literal table is the polynomial's. */
  lemma {:induction false} TableIsPolynomial(i: nat)
    requires i < 256
    ensures Table(i) == Entry(i)
  {
    hide Row, Shifts, Flipped;
    if i == 0 {
      ZeroShifts(8);
      assert Table(0) == 0 by { FirstEntry(); }
    } else {
      TableIsPolynomial(i / 2);
      TablePair(i / 2);
      EntryPair(i / 2);
    }
  }

  lemma FirstEntry()
    ensures Table(0) == 0
  {
  }

  lemma TableStep(crc: nat, b: Byte)
    ensures PyStep(crc, b) == Xor(crc * 256 + b, Table(crc / 256 % 256))
  {
    hide Table, Entry;
    TableIsPolynomial(crc / 256 % 256);
  }

  /** calc_crc: the accumulator grows without a mask until the last line. */
  method CalcCrc(data: seq<Byte>, seed: nat) returns (crc: nat)
    ensures crc == Crc(data, seed)
  {
    hide PyStep, RegStep, Table, Xor;
    crc := seed;
    var i := 0;
    while i < |data|
      invariant 0 <= i <= |data| && crc % REGS == RegFold(seed % REGS, data[..i])
    {
      PyStepAgrees(crc, data[i]);
      TableStep(crc, data[i]);
      RegFoldAppend(seed % REGS, data[..i], [data[i]]);
      assert data[..i + 1] == data[..i] + [data[i]];
      crc := Xor(crc * 256 + data[i], Table(crc / 256 % 256));
      i := i + 1;
    }
    assert data[..i] == data;
    var zeros: seq<Byte> := [];
    assert data + zeros == data;
    for k := 0 to 2
      invariant |zeros| == k && zeros == Fill(k, 0) && crc % REGS == RegFold(seed % REGS, data + zeros)
    {
      PyStepAgrees(crc, 0);
      TableStep(crc, 0);
      RegFoldAppend(seed % REGS, data + zeros, [0]);
      assert data + zeros + [0] == data + (zeros + [0]);
      crc := Xor(crc * 256 + 0, Table(crc / 256 % 256));
      zeros := zeros + [0];
    }
    assert zeros == [0, 0];
    crc := crc % REGS;
  }
}
