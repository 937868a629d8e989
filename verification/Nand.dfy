/** The SPI NAND paths of the FMC100 driver (agent/spi_flash.c): pages move through
    the chip's cache and the controller's 256-byte I/O buffer. */
module Nand {
  import opened Bits
  import opened Nor
  import opened Options
  import Crc32

  const PAGE := 2048
  const IOBUF := 256
  /** The status that stands for "never finished". */
  const NEVER: Byte := 0xFF

  function PageOf(cells: seq<Byte>, row: nat): (p: seq<Byte>)
    requires row * PAGE + PAGE <= |cells|
    ensures |p| == PAGE
  {
    cells[row * PAGE..row * PAGE + PAGE]
  }

  /** The cache after data was loaded at `column`: a resetting load, then random loads.
      Without data there is no load, and the cache keeps what it had. */
  function Loaded(cache: seq<Byte>, column: nat, data: seq<Byte>): (c: seq<Byte>)
    requires |cache| == PAGE && column + |data| <= PAGE
    ensures |c| == PAGE
  {
    if data == [] then cache else Splice(Fill(PAGE, 255), column, data)
  }

  /** Any data at all: the page's other bytes are loaded as 0xFF, and programming 0xFF
      changes nothing. */
  lemma LoadedPrograms(cells: seq<Byte>, row: nat, cache: seq<Byte>, column: nat, data: seq<Byte>)
    requires row * PAGE + PAGE <= |cells| && |cache| == PAGE && column + |data| <= PAGE && data != []
    ensures Burnt(cells, row * PAGE, Loaded(cache, column, data)) == Burnt(cells, row * PAGE + column, data)
  {
    var base, c := row * PAGE, Loaded(cache, column, data);
    var x, y := Burnt(cells, base, c), Burnt(cells, base + column, data);
    hide Burnt, And, Loaded;
    forall i | 0 <= i < |x| ensures x[i] == y[i] {
      BurntAt(cells, base, c, i);
      BurntAt(cells, base + column, data, i);
      ByteAnd(cells[i]);
      if base <= i < base + PAGE { LoadedAt(cache, column, data, i - base); }
    }
  }

  lemma LoadedAt(cache: seq<Byte>, column: nat, data: seq<Byte>, k: nat)
    requires |cache| == PAGE && column + |data| <= PAGE && data != [] && k < PAGE
    ensures Loaded(cache, column, data)[k] == if column <= k < column + |data| then data[k - column] else 255
  {
  }

  class Chip {
    var cells: seq<Byte>
    var cache: seq<Byte>
    var iobuf: seq<Byte>
    /** Which of the coming controller operations will time out. */
    var faults: seq<bool>

    ghost predicate Valid()
      reads this
    {
      |cells| % PAGE == 0 && |cache| == PAGE && |iobuf| == IOBUF
    }

    ghost predicate Healthy()
      reads this`faults
    {
      forall i :: 0 <= i < |faults| ==> !faults[i]
    }

    method Tick() returns (stalled: bool)
      modifies this`faults
      ensures old(Healthy()) ==> !stalled && Healthy()
    {
      if faults == [] { return false; }
      stalled := faults[0];
      faults := faults[1..];
    }

    /** PAGE_READ, then the wait for the chip. */
    method PageRead(row: nat) returns (stalled: bool, status: Byte)
      requires Valid() && row * PAGE + PAGE <= |cells|
      modifies this`cache, this`faults
      ensures Valid() && (!stalled && status != NEVER ==> cache == PageOf(cells, row))
      ensures old(Healthy()) ==> Healthy() && !stalled && status != NEVER
    {
      stalled := Tick();
      var hung := Tick();
      status := if hung then NEVER else 0;
      if !stalled && !hung { cache := PageOf(cells, row); }
    }

    /** READ_FROM_CACHE: the dummy byte comes first. */
    method ReadFromCache(column: nat, num: nat) returns (stalled: bool)
      requires Valid() && 1 <= num <= IOBUF && column + num - 1 <= PAGE
      modifies this`iobuf, this`faults
      ensures Valid() && (!stalled ==> iobuf[1..num] == cache[column..column + num - 1])
      ensures old(Healthy()) ==> Healthy() && !stalled
    {
      stalled := Tick();
      if !stalled { iobuf := [0] + cache[column..column + num - 1] + iobuf[num..]; }
    }

    /** Part of one page into buf[at..at+len]. */
    method NandRead(row: nat, column: nat, buf: array<Byte>, at: nat, len: nat) returns (status: Byte)
      requires Valid() && row * PAGE + PAGE <= |cells| && column + len <= PAGE && at + len <= buf.Length
      modifies this`cache, this`iobuf, this`faults, buf
      ensures Valid() && Kept(buf[..], old(buf[..]), at, at + len)
      ensures status != NEVER ==> buf[..][at..at + len] == PageOf(cells, row)[column..column + len]
      ensures old(Healthy()) ==> Healthy() && status != NEVER
    {
      hide PageOf, Healthy, Kept;
      ghost var page, was := PageOf(cells, row), buf[..];
      KeptAll(was, at, at + len);
      var stalled;
      stalled, status := PageRead(row);
      var off := 0;
      while off < len
        invariant 0 <= off <= len && Valid() && (old(Healthy()) ==> Healthy() && !stalled)
        invariant Kept(buf[..], was, at, at + len)
        invariant !stalled && status != NEVER ==> cache == page && buf[..][at..at + off] == page[column..column + off]
      {
        var chunk := if len - off > 255 then 255 else len - off;
        var s := ReadFromCache(column + off, chunk + 1);
        stalled := stalled || s;
        ghost var before, bytes := buf[..], iobuf[1..chunk + 1];
        CopyOut(buf, at + off, iobuf[1..chunk + 1]);
        KeptMore(buf[..], before, was, at + off, at + off + chunk, at, at + len);
        if !stalled && status != NEVER { Grows(buf[..], before, at, off, bytes, page, column); }
        off := off + chunk;
      }
      if stalled { status := NEVER; }
    }

    /** Any range, page by page. */
    method FlashRead(addr: nat, buf: array<Byte>, len: nat) returns (rc: int)
      requires Valid() && addr + len <= |cells| && len <= buf.Length
      modifies this`cache, this`iobuf, this`faults, buf
      ensures Valid() && Kept(buf[..], old(buf[..]), 0, len)
      ensures rc == 0 ==> buf[..][..len] == cells[addr..addr + len]
      ensures old(Healthy()) ==> Healthy() && rc == 0
    {
      hide PageOf, Healthy, Kept;
      ghost var was := buf[..];
      KeptAll(was, 0, len);
      var stalled, a, left, done := false, addr, len, 0;
      while left > 0
        invariant 0 <= done <= len && a == addr + done && done + left == len
        invariant Valid() && Kept(buf[..], was, 0, len) && (old(Healthy()) ==> Healthy() && !stalled)
        invariant !stalled ==> buf[..][0..0 + done] == cells[addr..addr + done]
        decreases left
      {
        var row, col := a / PAGE, a % PAGE;
        var inPage := PAGE - col;
        var chunk := if left < inPage then left else inPage;
        RowInside(a, |cells|);
        PageSlice(cells, a, chunk);
        ghost var before := buf[..];
        var status := NandRead(row, col, buf, done, chunk);
        if status == NEVER { stalled := true; }
        KeptMore(buf[..], before, was, done, done + chunk, 0, len);
        if !stalled { Grows(buf[..], before, 0, done, cells[a..a + chunk], cells, addr); }
        a, left, done := a + chunk, left - chunk, done + chunk;
      }
      rc := if stalled then -1 else 0;
    }

    /** Page by page; read failures are not looked at. */
    method FlashCrc32(addr: nat, len: nat) returns (crc: nat)
      requires Valid() && addr + len <= |cells|
      modifies this`cache, this`iobuf, this`faults
      ensures Valid()
      ensures old(Healthy()) ==> Healthy() && crc == Crc32.Crc(0, cells[addr..addr + len])
    {
      hide Crc32.Crc;
      var page := new Byte[PAGE];
      var a, left := addr, len;
      crc := 0;
      Crc32.EmptyPiece(0);
      assert cells[addr..addr] == [];
      while left > 0
        invariant addr <= a <= addr + len && a + left == addr + len && Valid()
        invariant old(Healthy()) ==> Healthy() && crc == Crc32.Crc(0, cells[addr..a])
        decreases left
      {
        var col := a % PAGE;
        var chunk := PAGE - col;
        if chunk > left { chunk := left; }
        var _ := FlashRead(a, page, chunk);
        assert cells[addr..a + chunk] == cells[addr..a] + cells[a..a + chunk];
        Crc32.Compose(0, cells[addr..a], cells[a..a + chunk]);
        assert page[..chunk] == page[..][..chunk];
        crc := Crc32.Compute(crc, page[..chunk]);
        a, left := a + chunk, left - chunk;
      }
    }

    /** PROGRAM_LOAD resets the cache first; the random load does not. Whether the
        command finished is not looked at. */
    method ProgramLoad(first: bool, column: nat, num: nat)
      requires Valid() && num <= IOBUF && column + num <= PAGE
      modifies this`cache, this`faults
      ensures Valid()
      ensures old(Healthy()) ==>
                Healthy() && cache == Splice(if first then Fill(PAGE, 255) else old(cache), column, iobuf[..num])
    {
      var stalled := Tick();
      if stalled { return; }
      if first { cache := Fill(PAGE, 255); }
      cache := Splice(cache, column, iobuf[..num]);
    }

    /** PROGRAM_EXEC. A failed program leaves its page as `failed` says. */
    method ProgramExec(row: nat, failed: Option<seq<Byte>>) returns (rc: int)
      requires Valid() && row * PAGE + PAGE <= |cells| && (failed.Some? ==> |failed.value| == PAGE)
      modifies this`cells
      ensures Valid() && (rc == 0 <==> failed.None?) && |cells| == |old(cells)|
      ensures cells == if failed.None? then Burnt(old(cells), row * PAGE, cache)
                       else Splice(old(cells), row * PAGE, failed.value)
    {
      if failed.Some? {
        cells := Splice(cells, row * PAGE, failed.value);
        return -1;
      }
      cells := Burnt(cells, row * PAGE, cache);
      rc := 0;
    }

    method NandProgramPage(row: nat, column: nat, data: seq<Byte>, failed: Option<seq<Byte>>) returns (rc: int)
      requires Valid() && row * PAGE + PAGE <= |cells| && column + |data| <= PAGE
      requires failed.Some? ==> |failed.value| == PAGE
      modifies this
      ensures Valid() && (rc == 0 <==> failed.None?) && |cells| == |old(cells)|
      ensures old(Healthy()) ==> Healthy() && cache == Loaded(old(cache), column, data)
      ensures cells == if failed.None? then Burnt(old(cells), row * PAGE, cache)
                       else Splice(old(cells), row * PAGE, failed.value)
    {
      hide Burnt;
      var off, first := 0, true;
      ghost var was := cache;
      while off < |data|
        invariant 0 <= off <= |data| && Valid() && cells == old(cells) && (first <==> off == 0)
        invariant old(Healthy()) ==> Healthy() && cache == Loaded(was, column, data[..off])
      {
        var chunk := if |data| - off > 256 then 256 else |data| - off;
        iobuf := data[off..off + chunk] + iobuf[chunk..];
        assert iobuf[..chunk] == data[off..off + chunk];
        LoadedMore(was, column, data, off, off + chunk);
        ProgramLoad(first, column + off, chunk);
        first := false;
        off := off + chunk;
      }
      assert data[..off] == data;
      rc := ProgramExec(row, failed);
    }

    /** Cut at the end of the page. Without data nothing is loaded, and the page takes
        whatever the cache last held. */
    method FlashWritePage(addr: nat, data: seq<Byte>, failed: Option<seq<Byte>>) returns (rc: int)
      requires Valid() && addr < |cells| && (failed.Some? ==> |failed.value| == PAGE)
      modifies this
      ensures Valid() && (rc == 0 <==> failed.None?) && |cells| == |old(cells)|
      ensures var n := if |data| > 2048 - addr % 2048 then 2048 - addr % 2048 else |data|;
              var base := addr / 2048 * 2048;
              && addr + n <= |cells| && base + 2048 <= |cells|
              && (old(Healthy()) && rc == 0 ==>
                    cells == if data != [] then Burnt(old(cells), addr, data[..n])
                             else Burnt(old(cells), base, old(cache)))
              && cells[..base] == old(cells)[..base] && cells[base + 2048..] == old(cells)[base + 2048..]
    {
      var row, column := addr / PAGE, addr % PAGE;
      RowInside(addr, |cells|);
      var len := if |data| > PAGE - column then PAGE - column else |data|;
      if data != [] {
        LoadedPrograms(cells, row, cache, column, data[..len]);
      } else {
        assert Loaded(cache, column, data[..len]) == cache;
      }
      hide Loaded, Healthy;
      rc := NandProgramPage(row, column, data[..len], failed);
    }
  }

  lemma RowInside(a: nat, size: nat)
    requires a < size && size % PAGE == 0
    ensures a / PAGE * PAGE + PAGE <= size && a / PAGE * PAGE + a % PAGE == a
  {
  }

  lemma PageSlice(cells: seq<Byte>, a: nat, n: nat)
    requires a / PAGE * PAGE + PAGE <= |cells| && a % PAGE + n <= PAGE
    ensures a + n <= |cells| && PageOf(cells, a / PAGE)[a % PAGE..a % PAGE + n] == cells[a..a + n]
  {
    var base, col := a / PAGE * PAGE, a % PAGE;
    assert a == base + col;
    var x, y := cells[base..base + PAGE][col..col + n], cells[a..a + n];
    assert |x| == |y| && forall i :: 0 <= i < |x| ==> x[i] == y[i];
  }

  lemma LoadedMore(was: seq<Byte>, column: nat, data: seq<Byte>, n: nat, m: nat)
    requires |was| == PAGE && n < m <= |data| && column + |data| <= PAGE
    ensures var c := Loaded(was, column, data[..n]);
            Splice(if n == 0 then Fill(PAGE, 255) else c, column + n, data[n..m]) == Loaded(was, column, data[..m])
  {
  }

  /** Nothing outside [lo, hi) differs. */
  ghost predicate Kept(now: seq<Byte>, was: seq<Byte>, lo: nat, hi: nat)
  {
    |now| == |was| && forall k :: 0 <= k < |was| && !(lo <= k < hi) ==> now[k] == was[k]
  }

  lemma KeptAll(s: seq<Byte>, lo: nat, hi: nat)
    ensures Kept(s, s, lo, hi)
  {
  }

  lemma KeptMore(now: seq<Byte>, mid: seq<Byte>, was: seq<Byte>, lo: nat, hi: nat, lo': nat, hi': nat)
    requires Kept(now, mid, lo, hi) && Kept(mid, was, lo', hi') && lo' <= lo && hi <= hi'
    ensures Kept(now, was, lo', hi')
  {
  }

  lemma Grows(now: seq<Byte>, was: seq<Byte>, at: nat, off: nat, bytes: seq<Byte>, src: seq<Byte>, from: nat)
    requires at + off + |bytes| <= |was| && from + off + |bytes| <= |src| && |now| == |was|
    requires Kept(now, was, at + off, at + off + |bytes|) && now[at + off..at + off + |bytes|] == bytes
    requires was[at..at + off] == src[from..from + off] && bytes == src[from + off..from + off + |bytes|]
    ensures now[at..at + off + |bytes|] == src[from..from + off + |bytes|]
  {
    assert now[at..at + off] == was[at..at + off];
    Join(now, at, at + off, at + off + |bytes|);
    Join(src, from, from + off, from + off + |bytes|);
  }

  method CopyOut(buf: array<Byte>, at: nat, bytes: seq<Byte>)
    requires at + |bytes| <= buf.Length
    modifies buf
    ensures Kept(buf[..], old(buf[..]), at, at + |bytes|) && buf[..][at..at + |bytes|] == bytes
  {
    for i := 0 to |bytes|
      invariant forall k :: 0 <= k < i ==> buf[at + k] == bytes[k]
      invariant forall k :: 0 <= k < at || at + i <= k < buf.Length ==> buf[k] == old(buf[k])
    {
      buf[at + i] := bytes[i];
    }
  }

  /** A page write of no bytes, which no caller makes, with a cache of zeros left over from
      an earlier write: it clears an erased page. */
  lemma EmptyWriteClears()
    ensures Burnt(Fill(PAGE, 255), 0, Loaded(Fill(PAGE, 0), 0, [])) == Fill(PAGE, 0)
  {
    var page, cache := Fill(PAGE, 255), Fill(PAGE, 0);
    var now := Burnt(page, 0, cache);
    hide Burnt, And;
    forall i | 0 <= i < PAGE ensures now[i] == 0 {
      BurntAt(page, 0, cache, i);
      AndByte(0);
    }
  }
}
