/** The blocks write_memory cuts its data into, their packets, and what the agent makes of
    them when nothing is lost. */
module WriteBlocks {
  import opened Bits
  import opened Framing
  import opened Nor
  import opened Options
  import opened Tiling
  import opened WriteAgent
  import opened WriteLink
  import Crc32
  import ReadMemory

  const BLOCK := 16 * 1024
  const WINDOW := 16
  const CHUNK := 512

  function Blocks(data: seq<Byte>): nat
  {
    Pieces(|data|, BLOCK)
  }

  function BlockAt(data: seq<Byte>, k: nat): seq<Byte>
  {
    UptoGrows(|data|, BLOCK, k);
    data[Upto(|data|, BLOCK, k)..Upto(|data|, BLOCK, k + 1)]
  }

  function CommandAt(addr: nat, data: seq<Byte>, k: nat): Command
  {
    Command(addr + Upto(|data|, BLOCK, k), |BlockAt(data, k)|, Crc32.Crc(0, BlockAt(data, k)))
  }

  function CommandsAt(addr: nat, data: seq<Byte>, first: nat, n: nat): (cs: seq<Command>)
    ensures |cs| == n
  {
    seq(n, i requires 0 <= i < n => CommandAt(addr, data, first + i))
  }

  /** The data lies in RAM. */
  predicate InRam(addr: nat, data: seq<Byte>)
  {
    addr >= RAM_BASE && addr + |data| < TOP
  }

  lemma BlockAccepted(addr: nat, data: seq<Byte>, k: nat)
    requires InRam(addr, data) && k < Blocks(data)
    ensures Accepts(CommandAt(addr, data, k)) && CommandAt(addr, data, k).crc < TOP
  {
    PieceBounds(|data|, BLOCK, k);
    Crc32.Fits(BlockAt(data, k));
  }

  lemma BlocksApart(addr: nat, data: seq<Byte>, k: nat, j: nat)
    requires k < j
    ensures Apart(CommandAt(addr, data, k), CommandAt(addr, data, j))
  {
    hide Crc32.Crc;
    UptoMono(|data|, BLOCK, k + 1, j);
  }

  lemma BlocksDisjoint(addr: nat, data: seq<Byte>, first: nat, n: nat)
    ensures Disjoint(CommandsAt(addr, data, first, n))
  {
    hide CommandAt, Apart;
    var cs := CommandsAt(addr, data, first, n);
    forall a, b | 0 <= a < b < n ensures Apart(cs[a], cs[b]) {
      BlocksApart(addr, data, first + a, first + b);
    }
  }

  /** Blocks [0, n) of the data are in RAM, as far as their CRC-32 tells. */
  ghost predicate Held(ram: seq<Byte>, addr: nat, data: seq<Byte>, n: nat)
    requires IsRam(ram)
  {
    forall k :: 0 <= k < n ==> Holds(ram, CommandAt(addr, data, k))
  }

  /** Work on later blocks leaves the earlier ones alone. */
  lemma HeldKept(ram: seq<Byte>, ram': seq<Byte>, addr: nat, data: seq<Byte>, first: nat, n: nat)
    requires IsRam(ram) && Held(ram, addr, data, first) && Confined(ram, ram', CommandsAt(addr, data, first, n))
    ensures IsRam(ram') && Held(ram', addr, data, first)
  {
    hide CommandAt, Confined, Apart, Crc32.Crc;
    var cs := CommandsAt(addr, data, first, n);
    assert IsRam(ram') by { SameSize(ram, ram', cs); }
    forall k | 0 <= k < first ensures Holds(ram', CommandAt(addr, data, k)) {
      forall i | 0 <= i < n ensures Apart(CommandAt(addr, data, k), cs[i]) { BlocksApart(addr, data, k, first + i); }
      assert Holds(ram, CommandAt(addr, data, k));
      StillHeld(ram, ram', CommandAt(addr, data, k), cs);
    }
  }

  lemma HeldMore(ram: seq<Byte>, addr: nat, data: seq<Byte>, first: nat, n: nat)
    requires IsRam(ram) && Held(ram, addr, data, first)
    requires AllHold(ram, CommandsAt(addr, data, first, n))
    ensures Held(ram, addr, data, first + n)
  {
    hide CommandAt, Holds;
    forall k | first <= k < first + n ensures Holds(ram, CommandAt(addr, data, k)) {
      assert CommandsAt(addr, data, first, n)[k - first] == CommandAt(addr, data, k);
    }
  }

  /** The block at an offset and its command. */
  method NextBlock(addr: nat, data: seq<Byte>, offset: nat) returns (block: seq<Byte>, c: Command)
    requires InRam(addr, data) && offset % BLOCK == 0 && offset < |data|
    ensures block == BlockAt(data, offset / BLOCK) && c == CommandAt(addr, data, offset / BLOCK) && |block| <= BLOCK
  {
    ghost var k := offset / BLOCK;
    OffsetOf(|data|, offset);
    hide Upto, Pieces, BlockAt, CommandAt, Crc32.Crc;
    var size := if BLOCK < |data| - offset then BLOCK else |data| - offset;
    BlockIs(data, k);
    block := data[offset..offset + size];
    CommandIs(addr, data, k);
    var crc := Crc32.Compute(0, block);
    c := Command(addr + offset, size, crc);
  }

  /** CMD_WRITE and the data packets of one block. */
  method BlockPackets(addr: nat, data: seq<Byte>, offset: nat) returns (packets: seq<Packet>)
    requires InRam(addr, data) && offset % BLOCK == 0 && offset < |data|
    ensures packets == BlockList(addr, data, offset / BLOCK)
  {
    hide InRam, Upto, Pieces, BlockAt, CommandAt, WritePacket, Stream;
    var block, c := NextBlock(addr, data, offset);
    var stream := ChunkPackets(block);
    packets := [WritePacket(c)] + stream;
  }

  lemma Sendable(addr: nat, data: seq<Byte>, k: nat)
    requires InRam(addr, data) && k < Blocks(data)
    ensures CommandOf(WritePacket(CommandAt(addr, data, k))) == Some(CommandAt(addr, data, k))
  {
    hide CommandOf, WritePacket, CommandAt;
    BlockAccepted(addr, data, k);
    CommandRoundTrip(CommandAt(addr, data, k));
  }

  /** The bytes of a block in numbered packets of at most 512 bytes. */
  function Stream(block: seq<Byte>): (s: seq<Packet>)
    ensures |s| == Pieces(|block|, CHUNK)
  {
    seq(Pieces(|block|, CHUNK), j requires 0 <= j => ReadMemory.Piece(block, CHUNK, j))
  }

  /** The packets of block k: its command, then its bytes. */
  function BlockList(addr: nat, data: seq<Byte>, k: nat): seq<Packet>
  {
    [WritePacket(CommandAt(addr, data, k))] + Stream(BlockAt(data, k))
  }

  /** Block k on the wire: command 0x03 with address, size and CRC-32 of the bytes from
      16384 * k on, at most 16384 of them, and those bytes in numbered packets of 512. */
  lemma BlockOnWire(addr: nat, data: seq<Byte>, k: nat, j: nat)
    requires k * 16384 < |data|
    ensures var at, list := k * 16384, BlockList(addr, data, k);
            var end := if at + 16384 <= |data| then at + 16384 else |data|;
            && list[0] == Packet(0x03, Crc32.Le32(addr + at) + Crc32.Le32(end - at)
                                       + Crc32.Le32(Crc32.Crc(0, data[at..end])))
            && |list| == 1 + (end - at + 511) / 512
            && (j * 512 < end - at ==>
                  && 1 + j < |list|
                  && list[1 + j]
                     == Packet(0x82, [j % 256, j / 256 % 256]
                                     + data[at..end][j * 512..if j * 512 + 512 <= end - at then j * 512 + 512
                                                              else end - at]))
  {
    hide Crc32.Crc, Crc32.Le32;
    var at := k * 16384;
    var end := if at + 16384 <= |data| then at + 16384 else |data|;
    BlockEnds(|data|, k);
    assert BlockAt(data, k) == data[at..end];
    hide ReadMemory.Piece, BlockAt, Upto;
    if j * 512 < end - at {
      PieceBounds(end - at, 512, j);
      ReadMemory.PieceOnWire(data[at..end], 512, j);
    }
  }

  lemma BlockEnds(total: nat, k: nat)
    requires k * 16384 < total
    ensures Upto(total, 16384, k) == k * 16384
    ensures Upto(total, 16384, k + 1) == if k * 16384 + 16384 <= total then k * 16384 + 16384 else total
  {
    assert (k + 1) * 16384 == k * 16384 + 16384;
  }

  /** The packets of n blocks. */
  function WindowList(addr: nat, data: seq<Byte>, first: nat, n: nat): seq<Packet>
    decreases n
  {
    if n == 0 then [] else BlockList(addr, data, first) + WindowList(addr, data, first + 1, n - 1)
  }

  lemma {:induction false} WindowSnoc(addr: nat, data: seq<Byte>, first: nat, n: nat)
    ensures WindowList(addr, data, first, n + 1) == WindowList(addr, data, first, n) + BlockList(addr, data, first + n)
    decreases n
  {
    WindowCons(addr, data, first, n);
    hide BlockList, WindowList;
    if n == 0 {
      assert WindowList(addr, data, first, 0) == [] && WindowList(addr, data, first + 1, 0) == [] by {
        NoBlocks(addr, data, first);
        NoBlocks(addr, data, first + 1);
      }
    } else {
      WindowCons(addr, data, first, n - 1);
      WindowSnoc(addr, data, first + 1, n - 1);
      var x, y := BlockList(addr, data, first), WindowList(addr, data, first + 1, n - 1);
      assert x + (y + BlockList(addr, data, first + n)) == x + y + BlockList(addr, data, first + n);
    }
  }

  lemma WindowCons(addr: nat, data: seq<Byte>, first: nat, n: nat)
    ensures WindowList(addr, data, first, n + 1) == BlockList(addr, data, first) + WindowList(addr, data, first + 1, n)
  {
    hide BlockList;
  }

  lemma NoBlocks(addr: nat, data: seq<Byte>, first: nat)
    ensures WindowList(addr, data, first, 0) == []
  {
  }

  lemma OneBlock(addr: nat, data: seq<Byte>, k: nat)
    ensures WindowList(addr, data, k, 1) == BlockList(addr, data, k)
  {
    hide BlockList;
    assert WindowList(addr, data, k + 1, 0) == [];
  }

  lemma BlockSends(addr: nat, data: seq<Byte>, k: nat)
    requires InRam(addr, data) && k < Blocks(data)
    ensures SentCommands(BlockList(addr, data, k)) == [CommandAt(addr, data, k)]
  {
    hide CommandAt, BlockAt, SentCommands, Pieces, WritePacket, CommandOf;
    var stream := Stream(BlockAt(data, k));
    Sendable(addr, data, k);
    DataSendsNothing(stream);
    OneCommand(CommandAt(addr, data, k), stream);
  }

  /** The commands among a window's packets are those of its blocks. */
  lemma {:induction false} WindowSends(addr: nat, data: seq<Byte>, first: nat, n: nat)
    requires InRam(addr, data) && first + n <= Blocks(data)
    ensures SentCommands(WindowList(addr, data, first, n)) == CommandsAt(addr, data, first, n)
    decreases n
  {
    hide CommandAt, BlockList, SentCommands, Pieces;
    if n == 0 {
      assert SentCommands([]) == [] by { NoneSent(); }
    } else {
      BlockSends(addr, data, first);
      SentAppend(BlockList(addr, data, first), WindowList(addr, data, first + 1, n - 1));
      WindowSends(addr, data, first + 1, n - 1);
      assert CommandsAt(addr, data, first, n)
          == [CommandAt(addr, data, first)] + CommandsAt(addr, data, first + 1, n - 1);
    }
  }

  lemma NoneSent()
    ensures SentCommands([]) == []
  {
  }

  lemma OffsetOf(total: nat, offset: nat)
    requires offset % BLOCK == 0 && offset < total
    ensures offset / BLOCK < Pieces(total, BLOCK) && offset == Upto(total, BLOCK, offset / BLOCK)
  {
    PieceBounds(total, BLOCK, offset / BLOCK);
  }

  lemma OffsetAt(total: nat, k: nat)
    requires k < Pieces(total, BLOCK)
    ensures var offset := Upto(total, BLOCK, k); offset % BLOCK == 0 && offset < total && offset / BLOCK == k
  {
    PieceBounds(total, BLOCK, k);
    DivModBy(k * BLOCK, BLOCK, k, 0);
  }

  lemma BlockIs(data: seq<Byte>, k: nat)
    requires k < Blocks(data)
    ensures var offset := Upto(|data|, BLOCK, k);
            var size := if BLOCK < |data| - offset then BLOCK else |data| - offset;
            BlockAt(data, k) == data[offset..offset + size] && 0 <= size <= BLOCK
  {
    PieceBounds(|data|, BLOCK, k);
    NextUpto(|data|, k);
  }

  lemma CommandIs(addr: nat, data: seq<Byte>, k: nat)
    ensures CommandAt(addr, data, k)
         == Command(addr + Upto(|data|, BLOCK, k), |BlockAt(data, k)|, Crc32.Crc(0, BlockAt(data, k)))
  {
  }

  lemma NextUpto(total: nat, k: nat)
    requires k * BLOCK <= total
    ensures Upto(total, BLOCK, k + 1) == k * BLOCK + if BLOCK < total - k * BLOCK then BLOCK else total - k * BLOCK
  {
  }

  lemma OneCommand(c: Command, stream: seq<Packet>)
    requires CommandOf(WritePacket(c)) == Some(c) && SentCommands(stream) == []
    ensures SentCommands([WritePacket(c)] + stream) == [c]
  {
    hide WritePacket, CommandOf;
    var p := WritePacket(c);
    assert ([p] + stream)[0] == p && ([p] + stream)[1..] == stream;
  }

  /** The block in numbered packets of at most 512 bytes. */
  method ChunkPackets(block: seq<Byte>) returns (packets: seq<Packet>)
    requires |block| <= BLOCK
    ensures packets == Stream(block)
  {
    hide Upto, Pieces, ReadMemory.Piece, ReadMemory.NumberBytes;
    var offset, number := 0, 0;
    packets := [];
    PieceBounds(|block|, CHUNK, 0);
    assert block[0..0 + |block|] == block;
    while offset < |block|
      invariant offset == Upto(|block|, CHUNK, |packets|) && |packets| == number <= Pieces(|block|, CHUNK)
      invariant forall j :: 0 <= j < |packets| ==> packets[j] == ReadMemory.Piece(block, CHUNK, j)
      decreases |block| - offset
    {
      PieceBounds(|block|, CHUNK, number);
      var chunk := if CHUNK < |block| - offset then CHUNK else |block| - offset;
      ReadMemory.NextPiece(block, 0, |block|, CHUNK, number, chunk);
      ReadMemory.NextNumber(number);
      packets := packets + [Packet(RSP_DATA, ReadMemory.NumberBytes(number) + block[offset..offset + chunk])];
      offset := offset + chunk;
      number := number + 1;
    }
    PieceBounds(|block|, CHUNK, number);
  }

  // ---- When nothing is lost -------------------------------------------------------------

  lemma ArrivalsAppend(a: seq<Packet>, b: seq<Packet>)
    ensures Arrivals(a + b) == Arrivals(a) + Arrivals(b)
  {
  }

  /** A block with u bytes taken, and the rest of its packets. */
  lemma {:induction false} ReceiveStream(ram: seq<Byte>, c: Command, block: seq<Byte>, j: nat)
    requires IsRam(ram) && Accepts(c) && |block| == c.size && j < Pieces(|block|, CHUNK)
    ensures var u := Upto(|block|, CHUNK, j);
            && u < c.size && c.addr - RAM_BASE + u + |block[u..]| <= |ram|
            && var ram' := Splice(ram, c.addr - RAM_BASE + u, block[u..]);
               Serve(Device(ram, Some(Open(c, u))), Arrivals(Stream(block)[j..]))
               == Turn(Device(ram', None), [Verdict(ram', c)])
    decreases Pieces(|block|, CHUNK) - j
  {
    hide Upto, Pieces, Splice, IsRam, Verdict, Serve, Arrivals, Stream;
    var u, v, s := Upto(|block|, CHUNK, j), Upto(|block|, CHUNK, j + 1), Stream(block);
    PieceBounds(|block|, CHUNK, j);
    PieceBounds(|block|, CHUNK, j + 1);
    SpliceFits(ram, c, u, |block| - u);
    var d := Device(ram, Some(Open(c, u)));
    var mid := Splice(ram, c.addr - RAM_BASE + u, block[u..v]);
    TakesPiece(d, block, j);
    StreamFrom(block, j);
    ServeCons(d, Arrivals(s[j..]));
    if j + 1 == Pieces(|block|, CHUNK) {
      assert block[u..v] == block[u..];
      NothingLeft(block, Device(mid, None));
    } else {
      ReceiveStream(mid, c, block, j + 1);
      SpliceTwice(ram, c.addr - RAM_BASE + u, block[u..v], block[v..]);
      assert block[u..v] + block[v..] == block[u..];
    }
  }

  lemma SpliceFits(ram: seq<Byte>, c: Command, got: nat, n: nat)
    requires IsRam(ram) && Accepts(c) && got + n <= c.size
    ensures c.addr >= RAM_BASE && c.addr - RAM_BASE + got + n <= |ram|
    ensures forall s: seq<Byte> :: |s| == |ram| ==> IsRam(s)
  {
  }

  lemma NothingLeft(block: seq<Byte>, d: Device)
    requires Sound(d)
    ensures var n := Pieces(|block|, CHUNK); Serve(d, Arrivals(Stream(block)[n..])) == Turn(d, [])
  {
    hide Sound;
    assert Stream(block)[Pieces(|block|, CHUNK)..] == [];
  }

  lemma StreamFrom(block: seq<Byte>, j: nat)
    requires j < Pieces(|block|, CHUNK)
    ensures var s := Stream(block);
            && Arrivals(s[j..]) != [] && Arrivals(s[j..])[0] == Arrive(ReadMemory.Piece(block, CHUNK, j))
            && Arrivals(s[j..])[1..] == Arrivals(s[j + 1..])
  {
    hide ReadMemory.Piece;
    var s := Stream(block);
    assert s[j..][1..] == s[j + 1..];
  }

  lemma TakesPiece(d: Device, block: seq<Byte>, j: nat)
    requires Sound(d) && d.open.Some? && |block| == d.open.value.c.size && j < Pieces(|block|, CHUNK)
    requires d.open.value.got == Upto(|block|, CHUNK, j)
    ensures var c, u, v := d.open.value.c, Upto(|block|, CHUNK, j), Upto(|block|, CHUNK, j + 1);
            && u < v <= |block| && c.addr - RAM_BASE + v <= |d.ram|
            && var mid := Splice(d.ram, c.addr - RAM_BASE + u, block[u..v]);
               OnEvent(d, Arrive(ReadMemory.Piece(block, CHUNK, j)))
               == if v < c.size then Turn(Device(mid, Some(Open(c, v))), [])
                  else Turn(Device(mid, None), [Verdict(mid, c)])
  {
    hide Upto, Pieces, Splice, Verdict, ReadMemory.Piece;
    PieceData(block, j);
    var p := ReadMemory.Piece(block, CHUNK, j);
    assert p.data[2..][..|p.data| - 2] == p.data[2..];
  }

  lemma SpliceNothing(ram: seq<Byte>, at: nat)
    requires at <= |ram|
    ensures Splice(ram, at, []) == ram
  {
  }

  lemma PieceData(block: seq<Byte>, j: nat)
    requires j < Pieces(|block|, CHUNK)
    ensures var p, u, v := ReadMemory.Piece(block, CHUNK, j), Upto(|block|, CHUNK, j), Upto(|block|, CHUNK, j + 1);
            && p.cmd == RSP_DATA && u < v <= |block| && |p.data| == 2 + v - u && p.data[2..] == block[u..v]
            && p.data[2..2 + v - u] == block[u..v]
  {
    PieceBounds(|block|, CHUNK, j);
  }

  /** The data of a block that was opened: written and acknowledged. */
  lemma StreamServed(ram: seq<Byte>, c: Command, block: seq<Byte>)
    requires IsRam(ram) && Accepts(c) && |block| == c.size && c.crc == Crc32.Crc(0, block)
    ensures c.addr - RAM_BASE + |block| <= |ram| && IsRam(Splice(ram, c.addr - RAM_BASE, block))
    ensures Serve(Device(ram, Some(Open(c, 0))), Arrivals(Stream(block)))
         == Turn(Device(Splice(ram, c.addr - RAM_BASE, block), None), [ACK_OK])
  {
    hide Upto, Pieces, Serve, Crc32.Crc, Stream, Arrivals;
    PieceBounds(|block|, CHUNK, 0);
    assert Upto(|block|, CHUNK, 0) == 0 by { UptoZero(|block|); }
    ReceiveStream(ram, c, block, 0);
    assert Stream(block)[0..] == Stream(block) && block[0..] == block;
    assert Region(Splice(ram, c.addr - RAM_BASE, block), c) == block;
  }

  /** Its command. */
  lemma CommandServed(ram: seq<Byte>, c: Command)
    requires IsRam(ram) && Accepts(c) && CommandOf(WritePacket(c)) == Some(c)
    ensures Serve(Device(ram, None), Arrivals([WritePacket(c)])) == Turn(Device(ram, Some(Open(c, 0))), [ACK_OK])
  {
    hide WritePacket;
    var d, e := Device(ram, None), Arrive(WritePacket(c));
    assert Arrivals([WritePacket(c)]) == [e];
    var t := OnEvent(d, e);
    ServeCons(d, [e]);
    assert [e][1..] == [];
    ServeNone(t.device, []);
    assert t.replies + [] == [ACK_OK];
  }

  /** A block that arrives whole is written and acknowledged twice. */
  lemma BlockServed(ram: seq<Byte>, c: Command, block: seq<Byte>)
    requires IsRam(ram) && Accepts(c) && |block| == c.size && c.crc == Crc32.Crc(0, block)
    requires CommandOf(WritePacket(c)) == Some(c)
    ensures c.addr - RAM_BASE + |block| <= |ram| && IsRam(Splice(ram, c.addr - RAM_BASE, block))
    ensures Serve(Device(ram, None), Arrivals([WritePacket(c)] + Stream(block)))
         == Turn(Device(Splice(ram, c.addr - RAM_BASE, block), None), [ACK_OK, ACK_OK])
  {
    hide Serve, Crc32.Crc, Stream, Arrivals, WritePacket, CommandOf, Splice;
    StreamServed(ram, c, block);
    CommandServed(ram, c);
    ArrivalsAppend([WritePacket(c)], Stream(block));
    ServeAppend(Device(ram, None), Arrivals([WritePacket(c)]), Arrivals(Stream(block)));
    assert [ACK_OK] + [ACK_OK] == [ACK_OK, ACK_OK];
  }

  lemma UptoZero(size: nat)
    ensures Upto(size, CHUNK, 0) == 0
  {
  }

  /** A window that arrives whole at an idle agent leaves its bytes in RAM, is acknowledged
      in full, and leaves the agent idle. */
  lemma {:induction false} ServeWindow(ram: seq<Byte>, addr: nat, data: seq<Byte>, first: nat, n: nat)
    requires IsRam(ram) && InRam(addr, data) && first + n <= Blocks(data)
    ensures var t, u, v := Serve(Device(ram, None), Arrivals(WindowList(addr, data, first, n))),
                           Upto(|data|, BLOCK, first), Upto(|data|, BLOCK, first + n);
            && u <= v && addr - RAM_BASE + v <= |ram|
            && t.device == Device(Splice(ram, addr - RAM_BASE + u, data[u..v]), None) && AllOk(t.replies, 2 * n)
    decreases n
  {
    hide Upto, Pieces, Splice, BlockList, Serve, Arrivals, IsRam;
    UptoMono(|data|, BLOCK, first, first + n);
    var base, u, v := addr - RAM_BASE, Upto(|data|, BLOCK, first), Upto(|data|, BLOCK, first + n);
    RamFits(ram, addr, data);
    if n == 0 {
      ServeNothing(ram);
      SpliceNothing(ram, base + u);
      assert data[u..v] == [];
    } else {
      var w := Upto(|data|, BLOCK, first + 1);
      UptoMono(|data|, BLOCK, first + 1, first + n);
      UptoMono(|data|, BLOCK, first, first + 1);
      var mid, later := Splice(ram, base + u, data[u..w]), WindowList(addr, data, first + 1, n - 1);
      ServeBlock(ram, addr, data, first);
      SpliceRam(ram, base + u, data[u..w]);
      ServeWindow(mid, addr, data, first + 1, n - 1);
      ArrivalsAppend(BlockList(addr, data, first), later);
      ServeAppend(Device(ram, None), Arrivals(BlockList(addr, data, first)), Arrivals(later));
      SpliceTwice(ram, base + u, data[u..w], data[w..v]);
      Join(data, u, w, v);
    }
  }

  /** Block k of the data, whole. */
  lemma ServeBlock(ram: seq<Byte>, addr: nat, data: seq<Byte>, k: nat)
    requires IsRam(ram) && InRam(addr, data) && k < Blocks(data)
    ensures var u, w := Upto(|data|, BLOCK, k), Upto(|data|, BLOCK, k + 1);
            && u <= w && addr - RAM_BASE + w <= |ram|
            && Serve(Device(ram, None), Arrivals(BlockList(addr, data, k)))
               == Turn(Device(Splice(ram, addr - RAM_BASE + u, data[u..w]), None), [ACK_OK, ACK_OK])
  {
    hide Upto, Pieces, Splice, Serve, Arrivals, Stream, IsRam, BlockAt, WritePacket, CommandOf, Crc32.Crc, Accepts;
    BlockAccepted(addr, data, k);
    Sendable(addr, data, k);
    CommandIs(addr, data, k);
    BlockBytes(data, k);
    BlockServed(ram, CommandAt(addr, data, k), BlockAt(data, k));
  }

  /** Bytes u to v of the data were put in their place, and nothing else changed. */
  ghost predicate Landed(ram: seq<Byte>, ram': seq<Byte>, addr: nat, data: seq<Byte>, u: nat, v: nat)
  {
    && RAM_BASE <= addr && u <= v <= |data| && addr - RAM_BASE + v <= |ram|
    && ram' == Splice(ram, addr - RAM_BASE + u, data[u..v])
  }

  lemma LandedNothing(ram: seq<Byte>, addr: nat, data: seq<Byte>)
    requires IsRam(ram) && InRam(addr, data)
    ensures Landed(ram, ram, addr, data, 0, 0)
  {
  }

  lemma LandedMore(was: seq<Byte>, ram: seq<Byte>, ram': seq<Byte>, addr: nat, data: seq<Byte>, u: nat, v: nat)
    requires Landed(was, ram, addr, data, 0, u) && Landed(ram, ram', addr, data, u, v)
    ensures Landed(was, ram', addr, data, 0, v)
  {
    hide Splice;
    SpliceTwice(was, addr - RAM_BASE, data[0..u], data[u..v]);
    Join(data, 0, u, v);
  }

  lemma LandedAll(ram: seq<Byte>, ram': seq<Byte>, addr: nat, data: seq<Byte>)
    requires Landed(ram, ram', addr, data, 0, |data|)
    ensures RAM_BASE <= addr && addr - RAM_BASE + |data| <= |ram| && ram' == Splice(ram, addr - RAM_BASE, data)
  {
    hide Splice;
    assert data[0..|data|] == data;
  }

  lemma ServeNothing(ram: seq<Byte>)
    requires IsRam(ram)
    ensures Serve(Device(ram, None), Arrivals([])) == Turn(Device(ram, None), [])
  {
  }

  lemma RamFits(ram: seq<Byte>, addr: nat, data: seq<Byte>)
    requires IsRam(ram) && InRam(addr, data)
    ensures addr >= RAM_BASE && addr - RAM_BASE + |data| <= |ram|
  {
  }

  lemma SpliceRam(ram: seq<Byte>, at: nat, bytes: seq<Byte>)
    requires IsRam(ram) && at + |bytes| <= |ram|
    ensures IsRam(Splice(ram, at, bytes))
  {
  }

  lemma BlockBytes(data: seq<Byte>, k: nat)
    ensures Upto(|data|, BLOCK, k) <= Upto(|data|, BLOCK, k + 1)
    ensures BlockAt(data, k) == data[Upto(|data|, BLOCK, k)..Upto(|data|, BLOCK, k + 1)]
  {
    UptoGrows(|data|, BLOCK, k);
  }
}
