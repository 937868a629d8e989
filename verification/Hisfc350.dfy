/** The HISFC350 NOR driver (agent/spi_flash_hisfc350.c). The chip decodes 24-bit
    addresses; its extended address register picks the 16 MiB bank, and the driver
    remembers what it last wrote there. */
module Hisfc350 {
  import opened Bits
  import opened Nor
  import Crc32

  const BANK := 0x100_0000
  const SECTOR := 0x1_0000
  const PAGE := 256
  /** Bytes one page-program command can carry. */
  const BURST := 64
  /** current_bank before the first switch. */
  const UNKNOWN := 0xff

  /** The capacity the third JEDEC byte stands for. */
  function DetectSize(id2: nat): (size: nat)
    ensures ChipSize(size)
  {
    if 0x14 <= id2 <= 0x1A then
      Pow2At20();
      Pow2(id2)
    else BANK
  }

  /** 0x14 to 0x1A stand for 1, 2, 4, 8, 16, 32 and 64 MiB, everything else for 16. */
  lemma SizeDetected(id2: nat)
    ensures id2 == 0x14 ==> DetectSize(id2) == 0x10_0000
    ensures 0x15 <= id2 <= 0x1A ==> DetectSize(id2) == 2 * DetectSize(id2 - 1)
    ensures id2 < 0x14 || id2 > 0x1A ==> DetectSize(id2) == 0x100_0000
  {
    Pow2At20();
  }

  lemma Pow2At20()
    ensures Pow2(0x14) == 0x10_0000 && Pow2(0x15) == 0x20_0000 && Pow2(0x16) == 0x40_0000
    ensures Pow2(0x17) == 0x80_0000 && Pow2(0x18) == BANK && Pow2(0x19) == 2 * BANK && Pow2(0x1A) == 4 * BANK
  {
    Crc32.Pow32();
    assert Pow2(0x14) == 16 * Pow2(16);
    assert Pow2(0x17) == 8 * Pow2(0x14);
    assert Pow2(0x1A) == 8 * Pow2(0x17);
  }

  predicate ChipSize(size: nat)
  {
    || size == 0x10_0000 || size == 0x20_0000 || size == 0x40_0000 || size == 0x80_0000
    || size == BANK || size == 2 * BANK || size == 4 * BANK
  }

  /** The cell a 24-bit address reaches; a register value beyond the chip wraps. */
  function Decode(size: nat, ear: nat, off: nat): (cell: nat)
    requires ChipSize(size)
    ensures cell < size
  {
    (ear * BANK + off) % size
  }

  /** The cell the driver's accesses to linear address a end up at. */
  function Alias(size: nat, a: nat): nat
  {
    if size <= BANK || a < BANK then a else BANK + a % BANK
  }

  /** Two banks reach 32 MiB: from there on addresses fold back onto the upper bank. */
  lemma AliasExact(size: nat, a: nat)
    requires ChipSize(size) && a < size
    ensures Alias(size, a) < size
    ensures Alias(size, a) == a <==> size <= BANK || a < 2 * BANK
  {
  }

  /** A 64 MiB chip: linear address 32 MiB is served by the cell at 16 MiB. */
  lemma FoldsBack()
    ensures ChipSize(4 * BANK) && Alias(4 * BANK, 2 * BANK) == BANK
  {
  }

  function BankOf(a: nat): (bank: nat)
    ensures bank <= 1
  {
    if a >= BANK then 1 else 0
  }

  lemma DecodeIsAlias(size: nat, ear: nat, a: nat, i: nat)
    requires ChipSize(size) && a + i < size
    requires size > BANK ==> ear == BankOf(a) && a % BANK + i < BANK
    ensures Decode(size, ear, if size > BANK then a % BANK + i else a + i) == Alias(size, a + i)
  {
    if size <= BANK {
      SmallChip(size, ear, a + i);
    } else {
      var off := a % BANK + i;
      DivModBy(a + i, BANK, a / BANK, off);
      DivModBy(ear * BANK + off, size, 0, ear * BANK + off);
    }
  }

  /** Chips of one bank or less ignore the register. */
  lemma SmallChip(size: nat, ear: nat, off: nat)
    requires ChipSize(size) && size <= BANK && off < size
    ensures Decode(size, ear, off) == off
  {
    var q := BANK / size;
    assert BANK == q * size;
    assert ear * BANK == (ear * q) * size;
    DivModBy(ear * BANK + off, size, ear * q, off);
  }

  /** What a read of [addr, addr+len) sees. */
  function Seen(cells: seq<Byte>, addr: nat, len: nat): (s: seq<Byte>)
    requires ChipSize(|cells|) && addr + len <= |cells|
    ensures |s| == len
  {
    seq(len, i requires 0 <= i < len => AliasExact(|cells|, addr + i); cells[Alias(|cells|, addr + i)])
  }

  /** Up to 32 MiB that is the linear range. */
  lemma SeenLinear(cells: seq<Byte>, addr: nat, len: nat)
    requires ChipSize(|cells|) && addr + len <= |cells| && (|cells| <= BANK || addr + len <= 2 * BANK)
    ensures Seen(cells, addr, len) == cells[addr..addr + len]
  {
    forall i | 0 <= i < len ensures Seen(cells, addr, len)[i] == cells[addr..addr + len][i] {
      AliasExact(|cells|, addr + i);
    }
  }

  lemma SeenMore(cells: seq<Byte>, addr: nat, done: nat, n: nat)
    requires ChipSize(|cells|) && addr + done + n <= |cells|
    ensures Seen(cells, addr, done) + Seen(cells, addr + done, n) == Seen(cells, addr, done + n)
  {
    var x, y := Seen(cells, addr, done) + Seen(cells, addr + done, n), Seen(cells, addr, done + n);
    forall i | 0 <= i < |x| ensures x[i] == y[i] {
      if i >= done { assert x[i] == Seen(cells, addr + done, n)[i - done]; }
    }
  }

  /** The samples the erase check looks at: the first and last 16 bytes. */
  predicate SamplesErased(cells: seq<Byte>, addr: nat)
    requires ChipSize(|cells|) && addr + SECTOR <= |cells|
  {
    AllFf(Seen(cells, addr, 16)) && AllFf(Seen(cells, addr + SECTOR - 16, 16))
  }

  lemma SeenNone(cells: seq<Byte>, addr: nat)
    requires ChipSize(|cells|) && addr <= |cells|
    ensures Seen(cells, addr, 0) == []
  {
  }

  lemma PageInBank(addr: nat, n: nat)
    requires addr % PAGE + n <= PAGE
    ensures addr % BANK % PAGE == addr % PAGE && addr % BANK + n <= BANK && (BANK + addr % BANK) % PAGE == addr % PAGE
  {
    var q, o := addr / BANK, addr % BANK;
    DivModBy(addr, PAGE, q * 65536 + o / PAGE, o % PAGE);
    DivModBy(BANK + o, PAGE, 65536 + o / PAGE, o % PAGE);
  }

  lemma SectorInBank(addr: nat, n: nat)
    requires addr % SECTOR + n <= SECTOR
    ensures addr % BANK % SECTOR == addr % SECTOR && addr % BANK + n <= BANK
    ensures (BANK + addr % BANK) % SECTOR == addr % SECTOR
  {
    var q, o := addr / BANK, addr % BANK;
    DivModBy(addr, SECTOR, q * 256 + o / SECTOR, o % SECTOR);
    DivModBy(BANK + o, SECTOR, 256 + o / SECTOR, o % SECTOR);
  }

  /** A page or a sector lies in one bank, so its cells are consecutive. */
  lemma AliasRun(size: nat, addr: nat, n: nat, unit: nat)
    requires ChipSize(size) && (unit == PAGE || unit == SECTOR)
    requires addr % unit + n <= unit && addr + n <= size
    ensures addr % BANK + n <= BANK
    ensures Alias(size, addr) + n <= size && Alias(size, addr) % unit == addr % unit
    ensures forall x :: addr <= x < addr + n ==> Alias(size, x) == Alias(size, addr) + x - addr
  {
    var o := addr % BANK;
    if unit == PAGE { PageInBank(addr, n); } else { SectorInBank(addr, n); }
    forall x | addr <= x < addr + n ensures Alias(size, x) == Alias(size, addr) + x - addr {
      DivModBy(x, BANK, addr / BANK, o + x - addr);
    }
  }

  lemma SeenErased(now: seq<Byte>, sector: nat, addr: nat, n: nat)
    requires ChipSize(|now|) && sector <= addr && addr + n <= sector + SECTOR <= |now|
    requires Alias(|now|, sector) + SECTOR <= |now|
    requires forall x :: sector <= x < sector + SECTOR ==> Alias(|now|, x) == Alias(|now|, sector) + x - sector
    requires forall k :: Alias(|now|, sector) <= k < Alias(|now|, sector) + SECTOR ==> now[k] == 255
    ensures AllFf(Seen(now, addr, n))
  {
    hide Alias;
    forall i | 0 <= i < n ensures Seen(now, addr, n)[i] == 255 {
      assert Alias(|now|, addr + i) == Alias(|now|, sector) + addr + i - sector;
    }
  }

  lemma ErasedSamples(cells: seq<Byte>, addr: nat, left: seq<Byte>)
    requires ChipSize(|cells|) && addr % SECTOR == 0 && addr + SECTOR <= |cells| && |left| == SECTOR && AllFf(left)
    requires Alias(|cells|, addr) + SECTOR <= |cells|
    ensures SamplesErased(Splice(cells, Alias(|cells|, addr), left), addr)
  {
    hide Alias;
    var now := Splice(cells, Alias(|cells|, addr), left);
    AliasRun(|cells|, addr, SECTOR, SECTOR);
    SeenErased(now, addr, addr, 16);
    SeenErased(now, addr, addr + SECTOR - 16, 16);
  }

  /** The sector around a cell; on a sector boundary it starts there. */
  lemma SectorBase(size: nat, addr: nat)
    requires ChipSize(size) && addr < size
    ensures Alias(size, addr) < size && Alias(size, addr) / SECTOR * SECTOR + SECTOR <= size
    ensures addr % SECTOR == 0 ==> Alias(size, addr) / SECTOR * SECTOR == Alias(size, addr)
  {
    AliasExact(size, addr);
    SectorInBank(addr, 0);
    WholeUnits(size, SECTOR, Alias(size, addr));
  }

  lemma WholeUnits(size: nat, unit: nat, cell: nat)
    requires ChipSize(size) && (unit == PAGE || unit == SECTOR) && cell < size
    ensures cell / unit * unit + unit <= size
  {
    var q := size / unit;
    assert size == q * unit;
    assert cell / unit < q;
    MulLe(cell / unit + 1, q, unit);
  }

  // ---- Page programming ------------------------------------------------------------------

  /** What flash_write_page takes of its data. */
  function Capped(data: seq<Byte>): (d: seq<Byte>)
    ensures |d| <= PAGE
  {
    if |data| > PAGE then data[..PAGE] else data
  }

  /** The cell where the command for byte k starts: the bank is chosen once, by addr. */
  function Target(size: nat, addr: nat, k: nat): (cell: nat)
    requires ChipSize(size)
    ensures cell < size
  {
    if size > BANK then BankOf(addr) * BANK + (addr + k) % BANK else (addr + k) % size
  }

  lemma DecodeIsTarget(size: nat, ear: nat, addr: nat, k: nat)
    requires ChipSize(size) && (size > BANK ==> ear == BankOf(addr))
    ensures Decode(size, ear, (addr + k) % BANK) == Target(size, addr, k)
  {
    hide BankOf;
    var x := addr + k;
    var o := x % BANK;
    if size > BANK {
      DivModBy(ear * BANK + o, size, 0, ear * BANK + o);
    } else {
      var q := BANK / size;
      assert BANK == q * size;
      Multiples(x / BANK, q, size, o);
      Multiples(ear, q, size, o);
    }
  }

  lemma Multiples(n: nat, q: nat, size: nat, o: nat)
    requires size > 0
    ensures (n * (q * size) + o) % size == o % size
  {
    assert n * (q * size) == n * q * size;
    assert n * q * size + o == (n * q + o / size) * size + o % size;
    DivModBy(n * (q * size) + o, size, n * q + o / size, o % size);
  }

  /** One command at cell `at`: past the end of the page it goes on at its start. */
  function PageProgram(cells: seq<Byte>, at: nat, bytes: seq<Byte>): (s: seq<Byte>)
    ensures |s| == |cells|
  {
    seq(|cells|, k requires 0 <= k < |cells| =>
      var i := (k - at) % PAGE;
      if k / PAGE == at / PAGE && i < |bytes| then And(cells[k], bytes[i]) else cells[k])
  }

  lemma PageProgramInPage(cells: seq<Byte>, at: nat, bytes: seq<Byte>)
    requires at % PAGE + |bytes| <= PAGE && at + |bytes| <= |cells|
    ensures PageProgram(cells, at, bytes) == Burnt(cells, at, bytes)
  {
    var x, y := PageProgram(cells, at, bytes), Burnt(cells, at, bytes);
    forall k | 0 <= k < |x| ensures x[k] == y[k] {
      BurntAt(cells, at, bytes, k);
    }
  }

  /** The commands for data[offset..], 64 bytes each. */
  function Bursts(cells: seq<Byte>, addr: nat, data: seq<Byte>, offset: nat): (s: seq<Byte>)
    requires ChipSize(|cells|) && offset <= |data|
    ensures |s| == |cells|
    decreases |data| - offset
  {
    if offset == |data| then cells
    else
      var n := if |data| - offset > BURST then BURST else |data| - offset;
      Bursts(PageProgram(cells, Target(|cells|, addr, offset), data[offset..offset + n]), addr, data, offset + n)
  }

  /** The range is on the chip, and in one bank. */
  predicate InBank(size: nat, addr: nat, n: nat)
  {
    addr + n <= size && (size > BANK ==> addr % BANK + n <= BANK)
  }

  /** No command runs across the end of a page. */
  predicate Straight(addr: nat, n: nat)
  {
    addr % 256 + n <= 256 || addr % 64 == 0
  }

  lemma TargetInBank(size: nat, addr: nat, n: nat, k: nat)
    requires ChipSize(size) && InBank(size, addr, n) && k < n
    ensures Alias(size, addr) + n <= size && Target(size, addr, k) == Alias(size, addr) + k
    ensures Alias(size, addr) % PAGE == addr % PAGE
  {
    if size > BANK { DivModBy(addr + k, BANK, addr / BANK, addr % BANK + k); }
    else { DivModBy(addr + k, size, 0, addr + k); }
    PageInBank(addr, 0);
  }

  lemma BurstStraight(addr: nat, n: nat, offset: nat, len: nat)
    requires Straight(addr, n) && offset % BURST == 0 && 0 < len <= BURST && offset + len <= n
    ensures (addr + offset) % PAGE + len <= PAGE
  {
    if addr % PAGE + n <= PAGE {
      DivModBy(addr + offset, PAGE, addr / PAGE, addr % PAGE + offset);
    }
  }

  lemma {:induction false} BurstsLinearFrom(was: seq<Byte>, addr: nat, data: seq<Byte>, offset: nat)
    requires ChipSize(|was|) && InBank(|was|, addr, |data|) && Straight(addr, |data|)
    requires offset <= |data| && (offset % BURST == 0 || offset == |data|) && Alias(|was|, addr) + |data| <= |was|
    ensures var at := Alias(|was|, addr);
            Bursts(Burnt(was, at, data[..offset]), addr, data, offset) == Burnt(was, at, data)
    decreases |data| - offset
  {
    hide Alias, Target, InBank, Straight, PageProgram, Burnt;
    var at := Alias(|was|, addr);
    if offset == |data| {
      assert data[..offset] == data;
    } else {
      var n := if |data| - offset > BURST then BURST else |data| - offset;
      var cells := Burnt(was, at, data[..offset]);
      TargetInBank(|was|, addr, |data|, offset);
      BurstStraight(addr, |data|, offset, n);
      SamePage(at, addr, offset);
      PageProgramInPage(cells, at + offset, data[offset..offset + n]);
      BurntMore(was, at, data, offset, offset + n);
      BurstsLinearFrom(was, addr, data, offset + n);
    }
  }

  lemma SamePage(at: nat, addr: nat, offset: nat)
    requires at % PAGE == addr % PAGE
    ensures (at + offset) % PAGE == (addr + offset) % PAGE
  {
  }

  lemma BurstsLinear(was: seq<Byte>, addr: nat, data: seq<Byte>)
    requires ChipSize(|was|) && InBank(|was|, addr, |data|) && Straight(addr, |data|)
    ensures Alias(|was|, addr) + |data| <= |was|
    ensures Bursts(was, addr, data, 0) == Burnt(was, Alias(|was|, addr), data)
  {
    hide Bursts, Target, Burnt;
    AliasFits(|was|, addr, |data|);
    BurntNone(was, Alias(|was|, addr), data);
    BurstsLinearFrom(was, addr, data, 0);
  }

  /** The first cell of the next page, r bytes after `at`, is out of reach of a command that
      starts elsewhere. */
  lemma MissesNext(at: nat, r: nat, offset: nat, n: nat, len: nat)
    requires r == PAGE - at % PAGE && offset != r && r < n <= PAGE && offset + len <= n
    ensures var k, t := at + r, at + offset; k / PAGE != t / PAGE || (k - t) % PAGE >= len
  {
    assert at + r == (at / PAGE + 1) * PAGE;
    if offset > r {
      DivModBy(at + offset, PAGE, at / PAGE + 1, offset - r);
      DivModBy(PAGE + r - offset, PAGE, 0, PAGE + r - offset);
      assert ((at + r) - (at + offset)) % PAGE == (PAGE + r - offset) % PAGE;
    }
  }

  lemma {:induction false} BurstsMiss(cells: seq<Byte>, addr: nat, data: seq<Byte>, offset: nat)
    requires ChipSize(|cells|) && |data| <= PAGE && InBank(|cells|, addr, |data|) && !Straight(addr, |data|)
    requires offset <= |data| && (offset % BURST == 0 || offset == |data|)
    ensures var k := Alias(|cells|, addr) + PAGE - addr % PAGE;
            k < |cells| && Bursts(cells, addr, data, offset)[k] == cells[k]
    decreases |data| - offset
  {
    hide Alias, Target, InBank, Straight, PageProgram;
    var at, r := Alias(|cells|, addr), PAGE - addr % PAGE;
    Crossing(addr, |data|);
    TargetInBank(|cells|, addr, |data|, 0);
    if offset < |data| {
      var n := if |data| - offset > BURST then BURST else |data| - offset;
      TargetInBank(|cells|, addr, |data|, offset);
      NotThere(addr, |data|, offset);
      var next := PageProgram(cells, at + offset, data[offset..offset + n]);
      KeepsNext(cells, at, r, offset, data, n);
      BurstsMiss(next, addr, data, offset + n);
    }
  }

  lemma NotThere(addr: nat, n: nat, offset: nat)
    requires !Straight(addr, n) && offset % BURST == 0
    ensures offset != PAGE - addr % PAGE
  {
  }

  lemma KeepsNext(cells: seq<Byte>, at: nat, r: nat, offset: nat, data: seq<Byte>, n: nat)
    requires r == PAGE - at % PAGE && offset != r && r < |data| <= PAGE && offset + n <= |data|
    requires at + r < |cells|
    ensures PageProgram(cells, at + offset, data[offset..offset + n])[at + r] == cells[at + r]
  {
    MissesNext(at, r, offset, |data|, n);
  }

  /** Commands stay in the bank that was selected for addr. */
  lemma {:induction false} BurstsOtherBank(cells: seq<Byte>, addr: nat, data: seq<Byte>, offset: nat, k: nat)
    requires ChipSize(|cells|) && |cells| > BANK && offset <= |data| && k < |cells| && k / BANK != BankOf(addr)
    ensures Bursts(cells, addr, data, offset)[k] == cells[k]
    decreases |data| - offset
  {
    hide Target, PageProgram, BankOf;
    if offset < |data| {
      var n := if |data| - offset > BURST then BURST else |data| - offset;
      var at := Target(|cells|, addr, offset);
      TargetBank(|cells|, addr, offset);
      OtherBankKept(cells, at, data[offset..offset + n], k);
      BurstsOtherBank(PageProgram(cells, at, data[offset..offset + n]), addr, data, offset + n, k);
    }
  }

  lemma TargetBank(size: nat, addr: nat, k: nat)
    requires ChipSize(size) && size > BANK
    ensures Target(size, addr, k) / BANK == BankOf(addr)
  {
    hide BankOf;
    DivModBy(BankOf(addr) * BANK + (addr + k) % BANK, BANK, BankOf(addr), (addr + k) % BANK);
  }

  lemma OtherBankKept(cells: seq<Byte>, at: nat, bytes: seq<Byte>, k: nat)
    requires k < |cells| && k / BANK != at / BANK
    ensures PageProgram(cells, at, bytes)[k] == cells[k]
  {
    BankOfPage(k);
    BankOfPage(at);
  }

  lemma BankOfPage(k: nat)
    ensures k / PAGE / 65536 == k / BANK
  {
    var q, r := k / PAGE, k % PAGE;
    DivModBy(k, BANK, q / 65536, q % 65536 * PAGE + r);
  }

  ghost predicate ProgramsLinearly(cells: seq<Byte>, addr: nat, data: seq<Byte>)
    requires ChipSize(|cells|) && addr + |data| <= |cells|
  {
    Bursts(cells, addr, data, 0) == Burnt(cells, addr, data)
  }

  /** No command runs across a page end, and the range ends in the bank it starts in, one
      that the register reaches. */
  predicate Programmable(size: nat, addr: nat, n: nat)
  {
    Straight(addr, n) && InBank(size, addr, n) && (size <= BANK || addr < 2 * BANK || n == 0)
  }

  /** Exactly then is a call the same as programming the linear range, for any cells and
      data. */
  lemma StraightExact(size: nat, addr: nat, n: nat)
    requires ChipSize(size) && n <= PAGE && addr + n <= size
    ensures Programmable(size, addr, n) <==>
            forall cells: seq<Byte>, data: seq<Byte> :: |cells| == size && |data| == n ==>
              ProgramsLinearly(cells, addr, data)
  {
    hide Burnt, ProgramsLinearly, Programmable;
    if Programmable(size, addr, n) {
      forall cells: seq<Byte>, data: seq<Byte> | |cells| == size && |data| == n
        ensures ProgramsLinearly(cells, addr, data) {
        LinearThen(cells, addr, data);
      }
    } else {
      var k := MissedCell(size, addr, n);
      assert !ProgramsLinearly(Fill(size, 255), addr, Fill(n, 0)) by { MissedMeansNot(size, addr, n, k); }
    }
  }

  lemma LinearThen(cells: seq<Byte>, addr: nat, data: seq<Byte>)
    requires ChipSize(|cells|) && addr + |data| <= |cells| && Programmable(|cells|, addr, |data|)
    ensures ProgramsLinearly(cells, addr, data)
  {
    hide Burnt, Straight;
    if data == [] {
      BurntNone(cells, addr, data);
      assert data[..0] == data;
    } else {
      assert Alias(|cells|, addr) == addr by { AliasExact(|cells|, addr); }
      hide Bursts;
      BurstsLinear(cells, addr, data);
    }
  }

  /** A cell of the range that programming zeros over 0xFF leaves alone. */
  lemma MissedCell(size: nat, addr: nat, n: nat) returns (k: nat)
    requires ChipSize(size) && n <= PAGE && addr + n <= size && !Programmable(size, addr, n)
    ensures addr <= k < addr + n && Bursts(Fill(size, 255), addr, Fill(n, 0), 0)[k] == 255
  {
    hide Bursts;
    var cells, data := Fill(size, 255), Fill(n, 0);
    if size > BANK && addr >= 2 * BANK && n > 0 {
      k := addr;
      BurstsOtherBank(cells, addr, data, 0, k);
    } else if !InBank(size, addr, n) {
      k := addr - addr % BANK + BANK;
      NextBank(addr);
      BurstsOtherBank(cells, addr, data, 0, k);
    } else {
      k := addr + PAGE - addr % PAGE;
      Crossing(addr, n);
      assert Alias(size, addr) == addr by { AliasExact(size, addr); }
      BurstsMiss(cells, addr, data, 0);
    }
  }

  lemma NextBank(addr: nat)
    ensures var k := addr - addr % BANK + BANK; k / BANK == addr / BANK + 1 && k / BANK != BankOf(addr)
  {
    DivModBy(addr - addr % BANK + BANK, BANK, addr / BANK + 1, 0);
  }

  lemma MissedMeansNot(size: nat, addr: nat, n: nat, k: nat)
    requires ChipSize(size) && addr + n <= size && addr <= k < addr + n
    requires Bursts(Fill(size, 255), addr, Fill(n, 0), 0)[k] == 255
    ensures !ProgramsLinearly(Fill(size, 255), addr, Fill(n, 0))
  {
    hide Bursts, Burnt;
    BurntAt(Fill(size, 255), addr, Fill(n, 0), k);
    assert And(255, 0) == 0;
  }

  /** 128 bytes from 64 bytes before the bank end of a 32 MiB chip, on a multiple of 64: the
      cell at 16 MiB is missed. */
  lemma MissesBankEnd()
    ensures ChipSize(2 * BANK) && Straight(BANK - 64, 128)
    ensures Bursts(Fill(2 * BANK, 255), BANK - 64, Fill(128, 0), 0)[BANK] == 255
    ensures Burnt(Fill(2 * BANK, 255), BANK - 64, Fill(128, 0))[BANK] == 0
  {
    hide Bursts, Burnt;
    BurstsOtherBank(Fill(2 * BANK, 255), BANK - 64, Fill(128, 0), 0, BANK);
    BurntAt(Fill(2 * BANK, 255), BANK - 64, Fill(128, 0), BANK);
    assert And(255, 0) == 0;
  }

  lemma Crossing(addr: nat, n: nat)
    requires !Straight(addr, n)
    ensures PAGE - addr % PAGE < n
  {
  }

  lemma AliasFits(size: nat, addr: nat, n: nat)
    requires ChipSize(size) && InBank(size, addr, n)
    ensures Alias(size, addr) + n <= size
  {
  }

  method CopyInto(buf: array<Byte>, at: nat, bytes: seq<Byte>)
    requires at + |bytes| <= buf.Length
    modifies buf
    ensures buf[..] == old(buf[..at]) + bytes + old(buf[at + |bytes|..])
  {
    for i := 0 to |bytes|
      invariant forall k :: 0 <= k < i ==> buf[at + k] == bytes[k]
      invariant forall k :: 0 <= k < at || at + i <= k < buf.Length ==> buf[k] == old(buf[k])
    {
      buf[at + i] := bytes[i];
    }
  }

  method AllOnes(buf: array<Byte>) returns (ff: bool)
    ensures ff == AllFf(buf[..])
  {
    for i := 0 to buf.Length
      invariant forall k :: 0 <= k < i ==> buf[k] == 255
    {
      if buf[i] != 255 { assert buf[..][i] != 255; return false; }
    }
    ff := true;
  }

  class Driver {
    // The chip.
    var cells: seq<Byte>
    var ear: nat
    // The driver's statics.
    var needsBankSwitch: bool
    var currentBank: nat

    /** Once known, the cached bank is what the chip's register holds. */
    ghost predicate Valid()
      reads this
    {
      && ChipSize(|cells|) && (needsBankSwitch <==> |cells| > BANK)
      && (currentBank != UNKNOWN ==> currentBank == ear && ear <= 1)
    }

    /** flash_init's tail, for a chip that identified itself as `id2` and whose register
        was left anyhow. */
    constructor (cells: seq<Byte>, ear: nat, id2: nat)
      requires |cells| == DetectSize(id2)
      ensures Valid() && this.cells == cells && (needsBankSwitch ==> this.ear == 0)
    {
      this.cells, this.ear, this.currentBank := cells, ear, UNKNOWN;
      this.needsBankSwitch := |cells| > BANK;
      new;
      if needsBankSwitch { SelectBank(0); }
    }

    method SelectBank(bank: nat)
      requires Valid() && bank <= 1
      modifies this`ear, this`currentBank
      ensures Valid() && (needsBankSwitch ==> ear == bank)
    {
      if !needsBankSwitch || bank == currentBank { return; }
      ear := bank;
      currentBank := bank;
    }

    /** One window read: n bytes from `off` on, in the selected bank. */
    method Window(addr: nat, off: nat, n: nat) returns (bytes: seq<Byte>)
      requires Valid() && addr + n <= |cells|
      requires needsBankSwitch ==> ear == BankOf(addr) && off == addr % BANK && off + n <= BANK
      requires !needsBankSwitch ==> off == addr
      ensures bytes == Seen(cells, addr, n)
    {
      hide Decode, Alias;
      bytes := [];
      for i := 0 to n
        invariant |bytes| == i && forall k :: 0 <= k < i ==> bytes[k] == Seen(cells, addr, n)[k]
      {
        DecodeIsAlias(|cells|, ear, addr, i);
        bytes := bytes + [cells[Decode(|cells|, ear, off + i)]];
      }
    }

    method FlashRead(addr: nat, buf: array<Byte>, len: nat)
      requires Valid() && addr + len <= |cells| && len <= buf.Length
      modifies this`ear, this`currentBank, buf
      ensures Valid()
      ensures buf[..len] == Seen(cells, addr, len) && buf[len..] == old(buf[len..])
    {
      hide Seen;
      if !needsBankSwitch {
        var bytes := Window(addr, addr, len);
        CopyInto(buf, 0, bytes);
        return;
      }
      var a, left, done := addr, len, 0;
      SeenNone(cells, addr);
      while left > 0
        invariant 0 <= done <= len && a == addr + done && done + left == len && Valid()
        invariant buf[..done] == Seen(cells, addr, done) && buf[len..] == old(buf[len..])
        decreases left
      {
        SelectBank(BankOf(a));
        var off := a % BANK;
        var avail := BANK - off;
        var chunk := if left < avail then left else avail;
        var bytes := Window(a, off, chunk);
        SeenMore(cells, addr, done, chunk);
        CopyInto(buf, done, bytes);
        assert buf[..done + chunk] == buf[..done] + bytes;
        a, left, done := a + chunk, left - chunk, done + chunk;
      }
    }

    method FlashCrc32(addr: nat, len: nat) returns (crc: nat)
      requires Valid() && addr + len <= |cells|
      modifies this`ear, this`currentBank
      ensures Valid() && crc == Crc32.Crc(0, Seen(cells, addr, len))
    {
      hide Seen, Crc32.Crc;
      if !needsBankSwitch {
        var bytes := Window(addr, addr, len);
        crc := Crc32.Compute(0, bytes);
        return;
      }
      var a, left := addr, len;
      crc := 0;
      SeenNone(cells, addr);
      Crc32.EmptyPiece(0);
      while left > 0
        invariant addr <= a <= addr + len && a + left == addr + len && Valid()
        invariant crc == Crc32.Crc(0, Seen(cells, addr, a - addr))
        decreases left
      {
        SelectBank(BankOf(a));
        var off := a % BANK;
        var avail := BANK - off;
        var chunk := if left < avail then left else avail;
        var bytes := Window(a, off, chunk);
        SeenMore(cells, addr, a - addr, chunk);
        Crc32.Compose(0, Seen(cells, addr, a - addr), bytes);
        crc := Crc32.Compute(crc, bytes);
        a, left := a + chunk, left - chunk;
      }
    }

    method VerifyErased(addr: nat) returns (rc: int)
      requires Valid() && addr + SECTOR <= |cells|
      modifies this`ear, this`currentBank
      ensures Valid() && (rc == 0 <==> SamplesErased(cells, addr))
    {
      hide Seen;
      var buf := new Byte[16];
      FlashRead(addr, buf, 16);
      assert buf[..] == buf[..16];
      var ff := AllOnes(buf);
      if !ff { return -1; }
      FlashRead(addr + SECTOR - 16, buf, 16);
      assert buf[..] == buf[..16];
      ff := AllOnes(buf);
      rc := if ff then 0 else -1;
    }

    /** The erase command takes the sector around the cell it names. `left` is what that
        sector then holds: all ones, or whatever a chip that is write-protected in a way
        flash_unlock does not clear, or that is worn, leaves there. The check looks at the
        64 KiB from addr on. */
    method EraseSector(addr: nat, left: seq<Byte>) returns (rc: int)
      requires Valid() && addr + SECTOR <= |cells| && |left| == SECTOR
      modifies this
      ensures Valid() && needsBankSwitch == old(needsBankSwitch) && |cells| == old(|cells|)
      ensures var base := Alias(|cells|, addr) / SECTOR * SECTOR;
              base + SECTOR <= |cells| && cells == Splice(old(cells), base, left)
      ensures rc == 0 <==> SamplesErased(cells, addr)
      ensures AllFf(left) && addr % SECTOR == 0 ==> rc == 0
    {
      hide SamplesErased, Decode, Alias, Splice, AllFf;
      if needsBankSwitch { SelectBank(BankOf(addr)); }
      DecodeIsAlias(|cells|, ear, addr, 0);
      if !needsBankSwitch { DivModBy(addr, BANK, 0, addr); }
      var cell := Decode(|cells|, ear, addr % BANK);
      SectorBase(|cells|, addr);
      if addr % SECTOR == 0 && AllFf(left) { ErasedSamples(cells, addr, left); }
      cells := Splice(cells, cell / SECTOR * SECTOR, left);
      rc := VerifyErased(addr);
    }

    /** At most a page a call and 64 bytes a command; within a page, or across a page end
        on a multiple of 64, that is programming the linear range. */
    method WritePage(addr: nat, data: seq<Byte>)
      requires Valid()
      modifies this
      ensures Valid() && needsBankSwitch == old(needsBankSwitch) && |cells| == old(|cells|)
      ensures cells == Bursts(old(cells), addr, Capped(data), 0)
      ensures var d := Capped(data);
              InBank(|cells|, addr, |d|) && Straight(addr, |d|) ==>
                Alias(|cells|, addr) + |d| <= |cells| && cells == Burnt(old(cells), Alias(|cells|, addr), d)
    {
      hide Decode, Alias, Burnt, BankOf, PageProgram, Target, InBank, Straight;
      var len := if |data| > PAGE then PAGE else |data|;
      ghost var was, d := cells, Capped(data);
      if needsBankSwitch { SelectBank(BankOf(addr)); }
      var offset := 0;
      while offset < len
        invariant 0 <= offset <= len && Valid() && |cells| == |was| && needsBankSwitch == old(needsBankSwitch)
        invariant needsBankSwitch ==> ear == BankOf(addr)
        invariant Bursts(cells, addr, d, offset) == Bursts(was, addr, d, 0)
      {
        var chunk := if len - offset > BURST then BURST else len - offset;
        DecodeIsTarget(|cells|, ear, addr, offset);
        ProgramCommand((addr + offset) % BANK, data[offset..offset + chunk]);
        assert d[offset..offset + chunk] == data[offset..offset + chunk];
        offset := offset + chunk;
      }
      if InBank(|was|, addr, |d|) && Straight(addr, |d|) { BurstsLinear(was, addr, d); }
    }

    /** The chip's page-program command. */
    method ProgramCommand(off: nat, bytes: seq<Byte>)
      requires ChipSize(|cells|)
      modifies this`cells
      ensures cells == PageProgram(old(cells), Decode(|old(cells)|, ear, off), bytes)
    {
      hide Decode;
      cells := PageProgram(cells, Decode(|cells|, ear, off), bytes);
    }
  }

  // ---- Any sequence of operations ------------------------------------------------------

  datatype Op = Read(addr: nat, len: nat) | Sum(addr: nat, len: nat)
              | Erase(addr: nat, left: seq<Byte>) | Program(addr: nat, data: seq<Byte>)

  datatype Answer = Bytes(s: seq<Byte>) | Crc(crc: nat) | Erased(ok: bool) | Written

  /** In range; erases on a sector, programs that no command takes across a page end. */
  predicate Fits(op: Op, size: nat)
  {
    match op
    case Read(addr, len) => addr + len <= size
    case Sum(addr, len) => addr + len <= size
    case Erase(addr, left) => addr % SECTOR == 0 && addr + SECTOR <= size && |left| == SECTOR
    case Program(addr, data) => |data| <= PAGE && InBank(size, addr, |data|) && Straight(addr, |data|)
  }

  /** The same operation on one linear array. */
  function After(cells: seq<Byte>, op: Op): (s: seq<Byte>)
    requires Fits(op, |cells|)
    ensures |s| == |cells|
  {
    match op
    case Read(_, _) => cells
    case Sum(_, _) => cells
    case Erase(addr, left) => Splice(cells, addr, left)
    case Program(addr, data) => Burnt(cells, addr, data)
  }

  function Reply(cells: seq<Byte>, op: Op): Answer
    requires Fits(op, |cells|)
  {
    match op
    case Read(addr, len) => Bytes(cells[addr..addr + len])
    case Sum(addr, len) => Crc(Crc32.Crc(0, cells[addr..addr + len]))
    case Erase(addr, _) =>
      var now := After(cells, op);
      Erased(AllFf(now[addr..addr + 16]) && AllFf(now[addr + SECTOR - 16..addr + SECTOR]))
    case Program(_, _) => Written
  }

  function AfterAll(cells: seq<Byte>, ops: seq<Op>): (s: seq<Byte>)
    requires forall op :: op in ops ==> Fits(op, |cells|)
    ensures |s| == |cells|
  {
    if ops == [] then cells else After(AfterAll(cells, ops[..|ops| - 1]), ops[|ops| - 1])
  }

  lemma Linear(size: nat, addr: nat)
    requires ChipSize(size) && size <= 2 * BANK && addr < size
    ensures Alias(size, addr) == addr
  {
    AliasExact(size, addr);
  }

  /** One operation through the driver is the operation on linear memory. */
  method Perform(d: Driver, op: Op) returns (answer: Answer)
    requires d.Valid() && |d.cells| <= 2 * BANK && Fits(op, |d.cells|)
    modifies d
    ensures d.Valid() && d.cells == After(old(d.cells), op) && answer == Reply(old(d.cells), op)
  {
    hide Seen, Alias, Burnt, Crc32.Crc;
    match op
    case Read(addr, len) =>
      var buf := new Byte[len];
      d.FlashRead(addr, buf, len);
      SeenLinear(d.cells, addr, len);
      answer := Bytes(buf[..len]);
    case Sum(addr, len) =>
      var crc := d.FlashCrc32(addr, len);
      SeenLinear(d.cells, addr, len);
      answer := Crc(crc);
    case Erase(addr, left) =>
      Linear(|d.cells|, addr);
      var rc := d.EraseSector(addr, left);
      SeenLinear(d.cells, addr, 16);
      SeenLinear(d.cells, addr + SECTOR - 16, 16);
      answer := Erased(rc == 0);
    case Program(addr, data) =>
      if data != [] { Linear(|d.cells|, addr); }
      assert data[..|data|] == data;
      ghost var was := d.cells;
      d.WritePage(addr, data);
      if data == [] { BurntNone(was, addr, data); BurntNone(was, Alias(|was|, addr), data); }
      answer := Written;
  }

  /** Whatever is asked in whatever order of a chip of at most 32 MiB: the cells and
      every answer are those of linear memory. */
  method PerformAll(d: Driver, ops: seq<Op>) returns (answers: seq<Answer>)
    requires d.Valid() && |d.cells| <= 2 * BANK && forall op :: op in ops ==> Fits(op, |d.cells|)
    modifies d
    ensures d.Valid() && d.cells == AfterAll(old(d.cells), ops)
    ensures |answers| == |ops|
    ensures forall i :: 0 <= i < |ops| ==> answers[i] == Reply(AfterAll(old(d.cells), ops[..i]), ops[i])
  {
    hide After, Reply, Fits;
    ghost var was := d.cells;
    answers := [];
    for i := 0 to |ops|
      invariant d.Valid() && |answers| == i && d.cells == AfterAll(was, ops[..i])
      invariant forall k :: 0 <= k < i ==> answers[k] == Reply(AfterAll(was, ops[..k]), ops[k])
    {
      var answer := Perform(d, ops[i]);
      answers := answers + [answer];
      assert ops[..i + 1][..i] == ops[..i];
    }
    assert ops[..|ops|] == ops;
  }
}
