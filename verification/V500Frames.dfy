/** HEAD, DATA and TAIL frames of the V500 boot ROM, and a boot ROM that takes them in
    sequence. */
module V500Frames {
  import opened BigEndian
  import opened Bits
  import opened Options
  import Crc16

  const HEAD_MAGIC: seq<Byte> := [0xFE, 0x00, 0xFF, 0x01]
  const DATA_MAGIC: Byte := 0xDA
  const TAIL_MAGIC: Byte := 0xED

  function HeadFrame(total: nat, addr: nat): seq<Byte>
  {
    Crc16.Append(HEAD_MAGIC + Be32(total) + Be32(addr))
  }

  /** The number and its complement. */
  function Numbered(magic: Byte, n: nat): (s: seq<Byte>)
    ensures |s| == 3 && s[0] == magic
  {
    [magic, n % 256, 255 - n % 256]
  }

  function DataFrame(n: nat, chunk: seq<Byte>): seq<Byte>
  {
    Crc16.Append(Numbered(DATA_MAGIC, n) + chunk)
  }

  function TailFrame(n: nat): seq<Byte>
  {
    Crc16.Append(Numbered(TAIL_MAGIC, n))
  }

  datatype Frame = Head(total: nat, addr: nat) | Data(n: nat, payload: seq<Byte>) | Tail(n: nat)

  /** What the bytes of a frame say; None is a frame the boot ROM refuses. */
  function Decode(f: seq<Byte>): Option<Frame>
  {
    if |f| < 5 || !Crc16.Verify(f) then None
    else if f[..4] == HEAD_MAGIC && |f| == 14 then Some(Head(FromBe32(f[4..8]), FromBe32(f[8..12])))
    else if f[0] == DATA_MAGIC && |f| >= 6 && f[2] == 255 - f[1] then Some(Data(f[1], f[3..|f| - 2]))
    else if f[0] == TAIL_MAGIC && |f| == 5 && f[2] == 255 - f[1] then Some(Tail(f[1]))
    else None
  }

  lemma AppendShape(d: seq<Byte>)
    ensures |Crc16.Append(d)| == |d| + 2 && Crc16.Append(d)[..|d|] == d
  {
    hide Crc16.Crc;
  }

  lemma DecodeHead(total: nat, addr: nat)
    requires total < 0x1_0000_0000 && addr < 0x1_0000_0000
    ensures Decode(HeadFrame(total, addr)) == Some(Head(total, addr))
  {
    hide Crc16.Verify, Crc16.Append, Be32, FromBe32;
    var d := HEAD_MAGIC + Be32(total) + Be32(addr);
    var f := Crc16.Append(d);
    Crc16.AppendVerifies(d);
    AppendShape(d);
    Be32RoundTrip(total);
    Be32RoundTrip(addr);
    assert f[..4] == d[..4] && f[4..8] == d[4..8] == Be32(total) && f[8..12] == d[8..12] == Be32(addr);
  }

  lemma DecodeData(n: nat, chunk: seq<Byte>)
    requires chunk != []
    ensures Decode(DataFrame(n, chunk)) == Some(Data(n % 256, chunk))
  {
    hide Crc16.Verify, Crc16.Append;
    var d := Numbered(DATA_MAGIC, n) + chunk;
    var f := Crc16.Append(d);
    Crc16.AppendVerifies(d);
    AppendShape(d);
    assert f[0] == d[0] && f[1] == d[1] && f[2] == d[2];
    assert f[..4][0] == f[0];
    assert f[3..|f| - 2] == d[3..] == chunk;
  }

  lemma DecodeTail(n: nat)
    ensures Decode(TailFrame(n)) == Some(Tail(n % 256))
  {
    hide Crc16.Verify, Crc16.Append;
    var d := Numbered(TAIL_MAGIC, n);
    var f := Crc16.Append(d);
    Crc16.AppendVerifies(d);
    AppendShape(d);
    assert f[0] == d[0] && f[1] == d[1] && f[2] == d[2];
    assert f[..4][0] == f[0];
  }

  // ---- The bytes on the wire ----------------------------------------------------------

  /** HEAD is 14 bytes: magic, length and address with their most significant byte first,
      and a checksum of the twelve bytes before it, likewise. */
  lemma HeadOnWire(total: nat, addr: nat)
    requires total < 0x1_0000_0000 && addr < 0x1_0000_0000
    ensures var f := HeadFrame(total, addr);
            && |f| == 14 && f[..4] == [0xFE, 0x00, 0xFF, 0x01]
            && f[4..8] == Be32(total) && f[8..12] == Be32(addr)
            && 256 * (f[12] as int) + f[13] == Crc16.Crc(f[..12], 0)
  {
    hide Crc16.Crc, Be32, Crc16.Append;
    var d := HEAD_MAGIC + Be32(total) + Be32(addr);
    ChecksumLast(d);
    var f := Crc16.Append(d);
    assert f[..4] == d[..4] && f[4..8] == d[4..8] == Be32(total) && f[8..12] == d[8..12] == Be32(addr);
  }

  /** DATA is 0xDA and TAIL 0xED, each followed by the number modulo 256, its complement,
      the payload of a DATA, and the checksum of all that. */
  lemma NumberedOnWire(n: nat, chunk: seq<Byte>)
    ensures var f, m := DataFrame(n, chunk), 3 + |chunk|;
            && |f| == m + 2 && f[0] == 0xDA && f[1] == n % 256 && f[2] == 255 - n % 256 && f[3..m] == chunk
            && 256 * (f[m] as int) + f[m + 1] == Crc16.Crc(f[..m], 0)
    ensures var f := TailFrame(n);
            && |f| == 5 && f[0] == 0xED && f[1] == n % 256 && f[2] == 255 - n % 256
            && 256 * (f[3] as int) + f[4] == Crc16.Crc(f[..3], 0)
  {
    hide Crc16.Crc;
    var d := Numbered(DATA_MAGIC, n) + chunk;
    ChecksumLast(d);
    ChecksumLast(Numbered(TAIL_MAGIC, n));
    assert d[0] == 0xDA && d[1] == n % 256 && d[2] == 255 - n % 256 && d[3..] == chunk;
    var f := DataFrame(n, chunk);
    assert f[0] == f[..|d|][0] && f[1] == f[..|d|][1] && f[2] == f[..|d|][2] && f[3..|d|] == f[..|d|][3..];
  }

  lemma ChecksumLast(d: seq<Byte>)
    ensures var f := Crc16.Append(d);
            |f| == |d| + 2 && f[..|d|] == d && 256 * (f[|d|] as int) + f[|d| + 1] == Crc16.Crc(d, 0)
  {
    hide Crc16.Crc;
    Crc16.CrcWidth(d, 0);
  }

  // ---- The receiving boot ROM ---------------------------------------------------------

  datatype Area = Area(addr: nat, bytes: seq<Byte>)

  /** `next` is the number of the frame expected next, counted without wrapping. */
  datatype Rom = Rom(open: bool, addr: nat, total: nat, buf: seq<Byte>, next: nat, areas: seq<Area>)

  /** The state after an intact frame, and whether the frame is acknowledged: frames in
      sequence modulo 256 are taken, a repeat of the last one is acknowledged again. */
  function OnFrame(rom: Rom, f: seq<Byte>): (Rom, bool)
  {
    match Decode(f)
    case None => (rom, false)
    case Some(Head(total, addr)) => (Rom(true, addr, total, [], 1, rom.areas), true)
    case Some(Data(n, payload)) =>
      if rom.open && n == rom.next % 256 then (rom.(buf := rom.buf + payload, next := rom.next + 1), true)
      else (rom, rom.open && rom.next > 1 && n == (rom.next - 1) % 256)
    case Some(Tail(n)) =>
      if rom.open && n == rom.next % 256 && |rom.buf| == rom.total
      then (rom.(open := false, areas := rom.areas + [Area(rom.addr, rom.buf)]), true)
      else (rom, !rom.open && rom.areas != [] && n == rom.next % 256)
  }

  /** An intact f takes the boot ROM from rom to rom', and another copy of it changes
      nothing; every copy is acknowledged. */
  ghost predicate Takes(rom: Rom, f: seq<Byte>, rom': Rom)
  {
    OnFrame(rom, f) == (rom', true) && OnFrame(rom', f) == (rom', true)
  }

  lemma TakesHead(rom: Rom, total: nat, addr: nat)
    requires total < 0x1_0000_0000 && addr < 0x1_0000_0000
    ensures Takes(rom, HeadFrame(total, addr), Rom(true, addr, total, [], 1, rom.areas))
  {
    hide HeadFrame, Decode;
    DecodeHead(total, addr);
  }

  lemma TakesData(rom: Rom, chunk: seq<Byte>)
    requires rom.open && rom.next >= 1 && chunk != []
    ensures Takes(rom, DataFrame(rom.next, chunk), rom.(buf := rom.buf + chunk, next := rom.next + 1))
  {
    hide DataFrame, Decode;
    DecodeData(rom.next, chunk);
    assert rom.next % 256 != (rom.next + 1) % 256;
  }

  lemma TakesTail(rom: Rom)
    requires rom.open && |rom.buf| == rom.total
    ensures Takes(rom, TailFrame(rom.next), rom.(open := false, areas := rom.areas + [Area(rom.addr, rom.buf)]))
  {
    hide TailFrame, Decode;
    DecodeTail(rom.next);
  }
}
