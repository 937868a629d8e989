/** write_memory on the host: windows of blocks sent without waiting, their ACKs read
    afterwards, and a failed window repeated block by block. */
module WriteMemory {
  import opened Bits
  import opened Framing
  import opened Nor
  import opened Options
  import opened Tiling
  import opened WriteAgent
  import opened WriteLink
  import opened WriteBlocks
  import Crc32

  datatype Outcome = Done | Failed | Raised

  function Judged(status: Option<Byte>): Outcome
  {
    if status == None then Raised else if status == Some(ACK_OK) then Done else Failed
  }

  // ---- One block -----------------------------------------------------------------------------

  datatype Try = Try(link: Link, r: Outcome)

  /** _write_block: the command, its ACK, and only then the data and the second ACK. */
  function TryBlock(l: Link, addr: nat, data: seq<Byte>, k: nat): (t: Try)
    requires Sound(l.device)
    ensures Sound(t.link.device)
  {
    var x := Read(Exchanged(l.(queue := []), [WritePacket(CommandAt(addr, data, k))]), false);
    if x.status != Some(ACK_OK) then Try(x.link, Judged(x.status))
    else
      var y := Read(Exchanged(x.link, Stream(BlockAt(data, k))), true);
      Try(y.link, Judged(y.status))
  }

  /** True means that the block's region has the block's CRC-32 and that the agent is idle;
      nothing outside the region changes. With nothing lost it is True exactly when no block
      was open before: an open one swallows the command. */
  lemma BlockTried(l: Link, addr: nat, data: seq<Byte>, k: nat)
    requires Sound(l.device) && InRam(addr, data) && k < Blocks(data)
    ensures var t := TryBlock(l, addr, data, k);
            && Confined(l.device.ram, t.link.device.ram, CommandsAt(addr, data, k, 1))
            && (t.r == Done ==>
                  && Holds(t.link.device.ram, CommandAt(addr, data, k)) && Oks(t.link.queue) == 0
                  && t.link.device.open == None)
            && (l.plans == [] ==> t.link.plans == [] && (t.r == Done <==> l.device.open == None))
  {
    hide Sound, InRam, Pieces, CommandAt, BlockAt, Stream, WritePacket, CommandOf, Exchanged, Read, Confined, Holds,
         AllHold, Oks;
    BlockSteps(l, addr, data, k);
    if l.plans == [] { BlockUndisturbed(l, addr, data, k); }
  }

  lemma {:induction false} NoDataNoChange(d: Device, events: seq<Event>)
    requires Sound(d) && forall i :: 0 <= i < |events| && events[i].Arrive? ==> events[i].p.cmd != RSP_DATA
    ensures Serve(d, events).device.ram == d.ram
    decreases |events|
  {
    hide CommandOf;
    if events != [] { NoDataNoChange(OnEvent(d, events[0]).device, events[1..]); }
  }

  lemma {:induction false} DeliversSent(sent: seq<Packet>, plan: seq<Slot>)
    ensures forall i :: 0 <= i < |Deliver(sent, plan)| && Deliver(sent, plan)[i].Arrive? ==>
              Deliver(sent, plan)[i].p in sent
    decreases |plan|
  {
    if plan != [] {
      DeliversSent(sent, plan[1..]);
      if sent != [] { DeliversSent(sent[1..], plan[1..]); }
    }
  }

  /** Data follows only a command whose ACK was heard: while the host hears nothing of what the
      agent answers to the command, RAM stays as it was and the block has failed. */
  lemma NoDataBeforeAck(l: Link, addr: nat, data: seq<Byte>, k: nat)
    requires Sound(l.device) && l.plans != [] && l.plans[0].keep == []
    ensures TryBlock(l, addr, data, k).link.device.ram == l.device.ram && TryBlock(l, addr, data, k).r != Done
  {
    hide Serve, CommandOf, CommandAt, Deliver, Crc32.Le32;
    var sent, slots := [WritePacket(CommandAt(addr, data, k))], l.plans[0].slots;
    DeliversSent(sent, slots);
    NoDataNoChange(l.device, Deliver(sent, slots));
  }

  lemma BlockSteps(l: Link, addr: nat, data: seq<Byte>, k: nat)
    requires Sound(l.device) && InRam(addr, data) && k < Blocks(data)
    ensures var t := TryBlock(l, addr, data, k);
            && Confined(l.device.ram, t.link.device.ram, CommandsAt(addr, data, k, 1))
            && (t.r == Done ==>
                  && Holds(t.link.device.ram, CommandAt(addr, data, k)) && Oks(t.link.queue) == 0
                  && t.link.device.open == None)
  {
    hide Sound, InRam, Pieces, CommandAt, BlockAt, Stream, WritePacket, CommandOf, Exchanged, Read, Confined, Holds,
         Oks;
    var c := CommandAt(addr, data, k);
    var p, cs := WritePacket(c), CommandsAt(addr, data, k, 1);
    assert cs == [c];
    var l0 := l.(queue := []);
    var l1 := Exchanged(l0, [p]);
    NoOks();
    Sendable(addr, data, k);
    CommandExchanged(l0, p, c);
    ReadOne(l1, false);
    ConfinedSelf(l.device.ram, cs);
    var x := Read(l1, false);
    if x.status == Some(ACK_OK) {
      var stream := Stream(BlockAt(data, k));
      assert SentCommands(stream) == [] by { StreamSends(BlockAt(data, k)); }
      DataExchanged(x.link, stream);
      ExchangeConfined(x.link, stream);
      var l3 := Exchanged(x.link, stream);
      ConfinedWider(x.link.device.ram, l3.device.ram, Opened(x.link.device) + SentCommands(stream), cs);
      ReadOne(l3, true);
    }
  }

  lemma StreamSends(block: seq<Byte>)
    ensures SentCommands(Stream(block)) == []
  {
    hide Pieces, SentCommands;
    DataSendsNothing(Stream(block));
  }

  lemma BlockUndisturbed(l: Link, addr: nat, data: seq<Byte>, k: nat)
    requires Sound(l.device) && InRam(addr, data) && k < Blocks(data) && l.plans == []
    ensures var t := TryBlock(l, addr, data, k);
            t.link.plans == [] && (t.r == Done <==> l.device.open == None)
  {
    hide InRam, Pieces, CommandAt, BlockAt, Stream, WritePacket, CommandOf, Serve, Accepts, IsRam, Splice, Arrivals;
    var c, ram := CommandAt(addr, data, k), l.device.ram;
    Sendable(addr, data, k);
    if l.device.open == None {
      BlockAccepted(addr, data, k);
      BlockMatches(addr, data, k);
      CommandServed(ram, c);
      StreamServed(ram, c, BlockAt(data, k));
    } else {
      Ignored(l.device, c);
    }
  }

  lemma BlockMatches(addr: nat, data: seq<Byte>, k: nat)
    ensures CommandAt(addr, data, k).size == |BlockAt(data, k)|
    ensures CommandAt(addr, data, k).crc == Crc32.Crc(0, BlockAt(data, k))
  {
  }

  lemma Ignored(d: Device, c: Command)
    requires Sound(d) && d.open.Some? && CommandOf(WritePacket(c)) == Some(c)
    ensures Serve(d, Arrivals([WritePacket(c)])) == Turn(d, [])
  {
    hide WritePacket, Sound;
    var e := Arrive(WritePacket(c));
    assert Arrivals([WritePacket(c)]) == [e];
    assert OnEvent(d, e) == Turn(d, []);
    ServeCons(d, [e]);
    assert [e][1..] == [];
    ServeNone(d, []);
  }

  method WriteBlock(s: Session, addr: nat, data: seq<Byte>, offset: nat, ghost k: nat) returns (r: Outcome)
    requires InRam(addr, data) && k < Blocks(data) && offset == Upto(|data|, BLOCK, k) && Sound(s.agent.View())
    modifies s, s.agent
    ensures Sound(s.agent.View()) && Try(s.View(), r) == TryBlock(old(s.View()), addr, data, k)
    ensures s.log == old(s.log) + [Attempt(k, 1, r == Done)]
  {
    hide Sound, InRam, Pieces, Upto, CommandAt, BlockAt, Stream, WritePacket, Exchanged, Read;
    s.Clear();
    OffsetAt(|data|, k);
    var block, c := NextBlock(addr, data, offset);
    s.Exchange([WritePacket(c)]);
    var first := s.ReadStatus(false);
    if first != Some(ACK_OK) {
      r := Judged(first);
    } else {
      var stream := ChunkPackets(block);
      s.Exchange(stream);
      var second := s.ReadStatus(true);
      r := Judged(second);
    }
    s.log := s.log + [Attempt(k, 1, r == Done)];
  }

  /** The packets of up to `window` blocks. */
  method WindowPackets(addr: nat, data: seq<Byte>, start: nat, window: nat, ghost first: nat)
    returns (sent: seq<Packet>, blocks: nat, offset: nat)
    requires InRam(addr, data) && first < Blocks(data) && start == Upto(|data|, BLOCK, first) && window >= 1
    ensures 1 <= blocks <= window && first + blocks <= Blocks(data) && offset == Upto(|data|, BLOCK, first + blocks)
    ensures blocks == window || offset == |data|
    ensures sent == WindowList(addr, data, first, blocks)
  {
    hide InRam, Upto, Pieces, BlockList;
    sent, blocks, offset := [], 0, start;
    while blocks < window
      invariant blocks <= window && first + blocks <= Blocks(data) && offset == Upto(|data|, BLOCK, first + blocks)
      invariant sent == WindowList(addr, data, first, blocks)
    {
      PieceBounds(|data|, BLOCK, first + blocks);
      if offset >= |data| { break; }
      OffsetAt(|data|, first + blocks);
      var packets := BlockPackets(addr, data, offset);
      WindowSnoc(addr, data, first, blocks);
      sent := sent + packets;
      var size := if BLOCK < |data| - offset then BLOCK else |data| - offset;
      NextUpto(|data|, first + blocks);
      offset := offset + size;
      blocks := blocks + 1;
    }
    PieceBounds(|data|, BLOCK, first);
  }

  /** A failed window again, block by block. */
  method RetryBlocks(s: Session, addr: nat, data: seq<Byte>, start: nat, blocks: nat, ghost first: nat)
    returns (r: Outcome, offset: nat)
    requires InRam(addr, data) && blocks > 0 && first + blocks <= Blocks(data) && start == Upto(|data|, BLOCK, first)
    requires Sound(s.agent.View()) && Held(s.agent.ram, addr, data, first) && Acked(s.log, first)
    modifies s, s.agent
    ensures Sound(s.agent.View())
    ensures Confined(old(s.agent.ram), s.agent.ram, CommandsAt(addr, data, first, blocks))
    ensures r == Done ==>
              && Held(s.agent.ram, addr, data, first + blocks) && Oks(s.queue) == 0 && s.agent.open == None
              && Acked(s.log, first + blocks)
              && offset == Upto(|data|, BLOCK, first + blocks)
    ensures old(s.plans) == [] ==> s.plans == [] && (r == Done <==> old(s.agent.open) == None)
  {
    hide InRam, Upto, Pieces, IsRam, Accepts, Confined, Held, Oks, CommandAt, Acked, Holds, AllHold, CommandsAt,
         TryBlock;
    offset := start;
    ghost var was, cs := s.agent.ram, CommandsAt(addr, data, first, blocks);
    ConfinedSelf(was, cs);
    var i := 0;
    while i < blocks
      invariant 0 <= i <= blocks && offset == Upto(|data|, BLOCK, first + i)
      invariant Sound(s.agent.View()) && Confined(was, s.agent.ram, cs) && Held(s.agent.ram, addr, data, first + i)
      invariant Acked(s.log, first + i)
      invariant i > 0 ==> Oks(s.queue) == 0 && s.agent.open == None
      invariant i == 0 ==> s.agent.open == old(s.agent.open)
      invariant old(s.plans) == [] ==> s.plans == [] && (i > 0 ==> old(s.agent.open) == None)
    {
      ghost var k, mid, log := first + i, s.agent.ram, s.log;
      PieceBounds(|data|, BLOCK, k);
      BlockTried(s.View(), addr, data, k);
      r := WriteBlock(s, addr, data, offset, k);
      OneOfThem(addr, data, first, blocks, i);
      ConfinedWider(mid, s.agent.ram, CommandsAt(addr, data, k, 1), cs);
      ConfinedTrans(was, mid, s.agent.ram, cs);
      if r != Done { return; }
      HeldKept(mid, s.agent.ram, addr, data, k, 1);
      OnlyOne(s.agent.ram, addr, data, k);
      HeldMore(s.agent.ram, addr, data, k, 1);
      Tried(log, k, 1, true);
      var size := if BLOCK < |data| - offset then BLOCK else |data| - offset;
      NextUpto(|data|, k);
      offset := offset + size;
      i := i + 1;
    }
    r := Done;
  }

  lemma OneOfThem(addr: nat, data: seq<Byte>, first: nat, blocks: nat, i: nat)
    requires i < blocks
    ensures forall c :: c in CommandsAt(addr, data, first + i, 1) ==> c in CommandsAt(addr, data, first, blocks)
  {
    hide CommandAt;
    var cs := CommandsAt(addr, data, first, blocks);
    assert CommandsAt(addr, data, first + i, 1) == [cs[i]];
  }

  lemma OnlyOne(ram: seq<Byte>, addr: nat, data: seq<Byte>, k: nat)
    requires IsRam(ram) && Holds(ram, CommandAt(addr, data, k))
    ensures AllHold(ram, CommandsAt(addr, data, k, 1))
  {
    hide CommandAt, Holds;
    assert CommandsAt(addr, data, k, 1) == [CommandAt(addr, data, k)];
  }

  // ---- One window -----------------------------------------------------------------------------

  /** The window of n blocks from `first` on: its packets, then its ACKs. */
  function TryWindow(l: Link, addr: nat, data: seq<Byte>, first: nat, n: nat): (a: Acks)
    requires Sound(l.device)
    ensures Sound(a.link.device)
  {
    ReadAll(Exchanged(l, WindowList(addr, data, first, n)), n)
  }

  /** All ACKs OK means that every block's region has its CRC-32 and that the agent is idle.
      RAM changes only in the regions of the window and of a block that was open before. */
  lemma WindowTried(l: Link, addr: nat, data: seq<Byte>, first: nat, n: nat)
    requires Sound(l.device) && InRam(addr, data) && n > 0 && first + n <= Blocks(data) && Oks(l.queue) == 0
    ensures var a, cs := TryWindow(l, addr, data, first, n), CommandsAt(addr, data, first, n);
            && Confined(l.device.ram, a.link.device.ram, Opened(l.device) + cs)
            && (a.ok ==> AllHold(a.link.device.ram, cs) && Oks(a.link.queue) == 0 && a.link.device.open == None)
            && a.link.plans == if l.plans == [] then [] else l.plans[1..]
  {
    hide Sound, InRam, Pieces, CommandAt, WindowList, Serve, Events, ReadAll, Confined, AllHold, Oks, CommandsAt,
         SentCommands, Disjoint;
    var sent := WindowList(addr, data, first, n);
    WindowSends(addr, data, first, n);
    BlocksDisjoint(addr, data, first, n);
    WindowStarts(addr, data, first, n);
    CommandsExchanged(l, sent);
    ExchangeConfined(l, sent);
    AcksRead(Exchanged(l, sent), n);
  }

  lemma WindowStarts(addr: nat, data: seq<Byte>, first: nat, n: nat)
    requires InRam(addr, data) && n > 0 && first + n <= Blocks(data)
    ensures var sent := WindowList(addr, data, first, n); sent != [] && CommandOf(sent[0]).Some?
  {
    hide InRam, Pieces, CommandAt, Stream, WritePacket, CommandOf;
    Sendable(addr, data, first);
    assert WindowList(addr, data, first, n)[0] == WritePacket(CommandAt(addr, data, first));
  }

  /** With nothing lost, from an idle agent on: the data lands, and the agent is idle again;
      and the ACKs are all there if nothing else was waiting. */
  lemma WindowUndisturbed(l: Link, addr: nat, data: seq<Byte>, first: nat, n: nat)
    requires Sound(l.device) && InRam(addr, data) && first + n <= Blocks(data) && l.plans == [] && l.device.open == None
    ensures var a := TryWindow(l, addr, data, first, n);
            var u, v := Upto(|data|, BLOCK, first), Upto(|data|, BLOCK, first + n);
            && a.link.device.open == None && Landed(l.device.ram, a.link.device.ram, addr, data, u, v)
            && (l.queue == [] ==> a.ok && a.link.queue == [])
  {
    hide InRam, Pieces, WindowList, Serve, ReadAll, Oks, Upto, Splice, AllOk, Arrivals;
    var sent := WindowList(addr, data, first, n);
    assert l.device == Device(l.device.ram, None);
    RamFits(l.device.ram, addr, data);
    ServeWindow(l.device.ram, addr, data, first, n);
    var l1, replies := Exchanged(l, sent), Serve(l.device, Arrivals(sent)).replies;
    AcksRead(l1, n);
    IdleAfterReading(l1, n);
    assert [] + replies == replies;
  }

  /** One window: its packets, then its ACKs. */
  method SendWindow(s: Session, addr: nat, data: seq<Byte>, start: nat, window: nat, ghost first: nat)
    returns (ok: bool, blocks: nat, offset: nat)
    requires InRam(addr, data) && first < Blocks(data) && start == Upto(|data|, BLOCK, first) && window >= 1
    requires Sound(s.agent.View())
    modifies s, s.agent
    ensures 1 <= blocks && first + blocks <= Blocks(data) && start <= offset == Upto(|data|, BLOCK, first + blocks)
    ensures blocks <= window && (blocks == window || first + blocks == Blocks(data))
    ensures Sound(s.agent.View()) && Acks(s.View(), ok) == TryWindow(old(s.View()), addr, data, first, blocks)
    ensures s.log == old(s.log) + [Attempt(first, blocks, ok)]
  {
    hide InRam, Upto, Pieces, Sound, WindowList, Exchanged, ReadAll;
    var sent;
    sent, blocks, offset := WindowPackets(addr, data, start, window, first);
    UptoMono(|data|, BLOCK, first, first + blocks);
    PieceBounds(|data|, BLOCK, first + blocks);
    if offset == |data| { UptoEnds(|data|, first + blocks); }
    s.Exchange(sent);
    ok := s.ReadAcks(blocks);
    s.log := s.log + [Attempt(first, blocks, ok)];
  }

  lemma UptoEnds(total: nat, k: nat)
    requires k <= Pieces(total, BLOCK) && Upto(total, BLOCK, k) == total
    ensures k == Pieces(total, BLOCK)
  {
    PieceBounds(total, BLOCK, k);
  }

  /** A window holds 16 blocks of 16 KiB, or all that are left if they are fewer. */
  lemma WindowSize(left: nat)
    ensures left >= 15 * 16384 + 1 <==> WindowFor(left) == 16
    ensures left < 15 * 16384 + 1 ==> WindowFor(left) * 16384 >= left > WindowFor(left) * 16384 - 16384
                                      || left == WindowFor(left) == 0
  {
  }

  /** min(WRITE_WINDOW, blocks left). */
  function WindowFor(left: nat): (w: nat)
    ensures left > 0 ==> w >= 1
  {
    var n := (left + BLOCK - 1) / BLOCK;
    if WINDOW < n then WINDOW else n
  }

  // ---- The whole transfer --------------------------------------------------------------------

  /** No block is open when the host has read the first window's ACKs: neither a block that
      the window completed nor one that a retry would find in its way. */
  ghost predicate Recovers(l: Link, addr: nat, data: seq<Byte>)
    requires Sound(l.device)
  {
    data == [] || TryWindow(l, addr, data, 0, WindowFor(|data|)).link.device.open == None
  }

  /** write_memory. It terminates; True means that the blocks cover the data, that the
      last transmission of each got its two OK ACKs, and that the CRC-32 of each region
      in the agent's RAM is that of its block. Undisturbed it leaves exactly the data in
      RAM. When one exchange is disturbed, however badly, the outcome is True exactly when
      no block is open at the agent once the host has read that window's ACKs. */
  method Write(s: Session, addr: nat, data: seq<Byte>) returns (r: Outcome)
    requires InRam(addr, data) && Sound(s.agent.View())
    modifies s, s.agent
    ensures Sound(s.agent.View())
    ensures r == Done ==> Held(s.agent.ram, addr, data, Blocks(data))
    ensures r == Done ==> Acked(s.log, Blocks(data))
    ensures Confined(old(s.agent.ram), s.agent.ram,
                     Opened(old(s.agent.View())) + CommandsAt(addr, data, 0, Blocks(data)))
    ensures addr - RAM_BASE + |data| <= |old(s.agent.ram)|
    ensures |old(s.plans)| <= 1 && old(s.agent.open) == None ==>
              (r == Done <==> Recovers(old(s.View()).(queue := []), addr, data))
    ensures old(s.plans) == [] && old(s.agent.open) == None ==>
              r == Done && s.agent.ram == Splice(old(s.agent.ram), addr - RAM_BASE, data)
  {
    SoundRam(s.agent.View());
    RamFits(s.agent.ram, addr, data);
    hide InRam, Upto, Pieces, Sound, IsRam, Confined, Held, Acked, CommandsAt, Landed, Recovers, Along, Opened, Splice;
    s.Clear();
    ghost var l0, all := s.View(), Opened(s.agent.View()) + CommandsAt(addr, data, 0, Blocks(data));
    AlongStart(l0, s.log, addr, data, all);
    r := WriteWindows(s, addr, data, all);
    if r == Done { AlongEnds(s.View(), s.log, addr, data, Blocks(data), l0.device.ram, all); }
    if l0.plans == [] && l0.device.open == None { LandedAll(l0.device.ram, s.agent.ram, addr, data); }
  }

  /** The loop over the windows. */
  method WriteWindows(s: Session, addr: nat, data: seq<Byte>, ghost all: seq<Command>) returns (r: Outcome)
    requires InRam(addr, data) && Sound(s.agent.View()) && s.queue == []
    requires Along(s.View(), s.log, addr, data, 0, s.agent.ram, all)
    modifies s, s.agent
    ensures Sound(s.agent.View()) && Confined(old(s.agent.ram), s.agent.ram, all)
    ensures r == Done ==> Along(s.View(), s.log, addr, data, Blocks(data), old(s.agent.ram), all)
    ensures |old(s.plans)| <= 1 && old(s.agent.open) == None ==> (r == Done <==> Recovers(old(s.View()), addr, data))
    ensures old(s.plans) == [] && old(s.agent.open) == None ==>
              r == Done && Landed(old(s.agent.ram), s.agent.ram, addr, data, 0, |data|)
  {
    hide InRam, Sound, Confined, WindowFor, Landed, Recovers, Along, Pieces, Round;
    ghost var l0: Link, first: nat := s.View(), 0;
    var offset: nat, window: nat := 0, WindowFor(|data|);
    r := Done;
    RoundStarts(l0, s.log, addr, data, all);
    while offset < |data| && r == Done
      invariant Sound(s.agent.View()) && Round(s.View(), s.log, l0, addr, data, first, offset, window, r, all)
      decreases if r == Done then |data| - offset + 1 else 0
    {
      r, offset, window, first := NextRound(s, addr, data, offset, window, first, l0, all);
    }
    RoundEnds(s.View(), s.log, l0, addr, data, first, offset, window, r, all);
  }

  /** Where the loop stands: `first` blocks are done, or a retry has failed. */
  ghost predicate Round(l: Link, log: seq<Attempt>, l0: Link, addr: nat, data: seq<Byte>, first: nat, offset: nat,
                        window: nat, r: Outcome, all: seq<Command>)
    requires Sound(l.device) && Sound(l0.device)
  {
    && Confined(l0.device.ram, l.device.ram, all)
    && (r == Done ==>
          && first <= Blocks(data) && offset == Upto(|data|, BLOCK, first)
          && (offset < |data| ==> window >= 1) && Along(l, log, addr, data, first, l0.device.ram, all)
          && (first == 0 ==> l == l0 && window == WindowFor(|data|)))
    && (l0.device.open == None && |l0.plans| <= 1 ==>
          if r == Done
          then l.device.open == None && |l.plans| <= 1 && (first > 0 ==> l.plans == [] && Recovers(l0, addr, data))
          else !Recovers(l0, addr, data))
    && (l0.device.open == None && l0.plans == [] ==>
          r == Done && l.plans == [] && l.queue == [] && Landed(l0.device.ram, l.device.ram, addr, data, 0, offset))
  }

  lemma RoundStarts(l0: Link, log: seq<Attempt>, addr: nat, data: seq<Byte>, all: seq<Command>)
    requires InRam(addr, data) && Sound(l0.device) && l0.queue == []
    requires Along(l0, log, addr, data, 0, l0.device.ram, all)
    ensures Round(l0, log, l0, addr, data, 0, 0, WindowFor(|data|), Done, all)
  {
    hide InRam, Sound, Confined, WindowFor, Landed, Recovers, Along, Pieces;
    SoundRam(l0.device);
    AlongEnds(l0, log, addr, data, 0, l0.device.ram, all);
    PieceBounds(|data|, BLOCK, 0);
    LandedNothing(l0.device.ram, addr, data);
  }

  lemma RoundEnds(l: Link, log: seq<Attempt>, l0: Link, addr: nat, data: seq<Byte>, first: nat, offset: nat,
                  window: nat, r: Outcome, all: seq<Command>)
    requires Sound(l.device) && Sound(l0.device) && Round(l, log, l0, addr, data, first, offset, window, r, all)
    requires r == Done ==> offset >= |data|
    ensures Confined(l0.device.ram, l.device.ram, all)
    ensures r == Done ==> Along(l, log, addr, data, Blocks(data), l0.device.ram, all)
    ensures |l0.plans| <= 1 && l0.device.open == None ==> (r == Done <==> Recovers(l0, addr, data))
    ensures l0.plans == [] && l0.device.open == None ==>
              r == Done && Landed(l0.device.ram, l.device.ram, addr, data, 0, |data|)
  {
    hide Sound, Confined, WindowFor, Landed, Recovers, Along, Pieces, Upto;
    if r == Done { UptoEnds(|data|, first); }
    if data == [] { NothingToWrite(l0, addr, data); }
    PieceBounds(|data|, BLOCK, 0);
  }

  /** One round, and what it means for the whole. */
  method NextRound(s: Session, addr: nat, data: seq<Byte>, start: nat, window: nat, ghost first: nat,
                   ghost l0: Link, ghost all: seq<Command>)
    returns (r: Outcome, offset: nat, next: nat, ghost done: nat)
    requires InRam(addr, data) && start < |data| && Sound(s.agent.View()) && Sound(l0.device)
    requires Round(s.View(), s.log, l0, addr, data, first, start, window, Done, all)
    modifies s, s.agent
    ensures Sound(s.agent.View()) && (r == Done ==> start < offset)
    ensures Round(s.View(), s.log, l0, addr, data, done, offset, next, r, all)
  {
    hide InRam, Upto, Pieces, Sound, Confined, WindowFor, Landed, Recovers, Along, TryWindow;
    ghost var l := s.View();
    PieceBounds(|data|, BLOCK, first);
    NotYet(|data|, first);
    var blocks;
    r, blocks, offset, next := WindowOrRetry(s, addr, data, start, window, first, l0.device.ram, all);
    done := first + blocks;
    if first == 0 { FirstWindow(l0, addr, data, blocks); }
    if r == Done { UptoProgress(|data|, first, blocks); }
    if l0.plans == [] && l0.device.open == None {
      LandedMore(l0.device.ram, l.device.ram, s.agent.ram, addr, data, start, offset);
    }
  }

  lemma NotYet(total: nat, first: nat)
    requires first <= Pieces(total, BLOCK) && Upto(total, BLOCK, first) < total
    ensures first < Pieces(total, BLOCK)
  {
    PieceBounds(total, BLOCK, first);
  }

  /** Blocks [0, first) are done. */
  ghost predicate Along(l: Link, log: seq<Attempt>, addr: nat, data: seq<Byte>, first: nat,
                        was: seq<Byte>, all: seq<Command>)
    requires Sound(l.device)
  {
    && Oks(l.queue) == 0 && Confined(was, l.device.ram, all)
    && Held(l.device.ram, addr, data, first) && Acked(log, first) && (first > 0 ==> l.device.open == None)
    && (forall c :: c in CommandsAt(addr, data, 0, Blocks(data)) ==> c in all)
    && (first == 0 ==> forall c :: c in Opened(l.device) ==> c in all)
  }

  lemma AlongStart(l: Link, log: seq<Attempt>, addr: nat, data: seq<Byte>, all: seq<Command>)
    requires Sound(l.device) && l.queue == []
    requires all == Opened(l.device) + CommandsAt(addr, data, 0, Blocks(data))
    ensures Along(l, log, addr, data, 0, l.device.ram, all)
  {
    hide Sound, Confined, Held, Acked, CommandsAt, Opened, Pieces;
    SoundRam(l.device);
    NoOks();
    ConfinedSelf(l.device.ram, all);
    NothingHeld(l.device.ram, addr, data);
    NothingAcked(log);
  }

  lemma AlongEnds(l: Link, log: seq<Attempt>, addr: nat, data: seq<Byte>, first: nat,
                  was: seq<Byte>, all: seq<Command>)
    requires Sound(l.device) && Along(l, log, addr, data, first, was, all)
    ensures IsRam(l.device.ram) && Confined(was, l.device.ram, all)
    ensures Held(l.device.ram, addr, data, first) && Acked(log, first)
  {
    hide Confined, Held, Acked, CommandsAt, Opened, Pieces, IsRam;
  }

  lemma FirstWindow(l: Link, addr: nat, data: seq<Byte>, blocks: nat)
    requires Sound(l.device) && data != [] && blocks <= WindowFor(|data|)
    requires blocks == WindowFor(|data|) || blocks == Blocks(data)
    ensures Recovers(l, addr, data) <==> TryWindow(l, addr, data, 0, blocks).link.device.open == None
  {
    hide Sound, TryWindow;
    WholeWindow(|data|, blocks);
  }

  lemma NothingToWrite(l: Link, addr: nat, data: seq<Byte>)
    requires Sound(l.device) && data == []
    ensures Recovers(l, addr, data)
  {
  }

  /** One round of the loop: a window, and its blocks one by one if it failed. */
  method WindowOrRetry(s: Session, addr: nat, data: seq<Byte>, start: nat, window: nat, ghost first: nat,
                       ghost was: seq<Byte>, ghost all: seq<Command>)
    returns (r: Outcome, blocks: nat, offset: nat, next: nat)
    requires InRam(addr, data) && first < Blocks(data) && start == Upto(|data|, BLOCK, first) && window >= 1
    requires Sound(s.agent.View()) && Along(s.View(), s.log, addr, data, first, was, all)
    modifies s, s.agent
    ensures 1 <= blocks <= window && first + blocks <= Blocks(data)
    ensures blocks == window || first + blocks == Blocks(data)
    ensures Sound(s.agent.View()) && Confined(was, s.agent.ram, all)
    ensures r == Done ==>
              && Along(s.View(), s.log, addr, data, first + blocks, was, all) && s.agent.open == None
              && offset == Upto(|data|, BLOCK, first + blocks) && (offset < |data| ==> next >= 1)
    ensures |old(s.plans)| <= 1 ==>
              && s.plans == []
              && (r == Done <==> TryWindow(old(s.View()), addr, data, first, blocks).link.device.open == None)
    ensures old(s.plans) == [] && old(s.agent.open) == None ==> r == Done
    ensures old(s.plans) == [] && old(s.agent.open) == None && old(s.queue) == [] ==>
              s.queue == [] && Landed(old(s.agent.ram), s.agent.ram, addr, data, start, offset)
  {
    hide InRam, Upto, Pieces, IsRam, Accepts, Confined, Held, CommandAt, Acked, CommandsAt, WindowFor, Landed,
         Oks, TryWindow, Opened;
    ghost var l, log := s.View(), s.log;
    var ok;
    ok, blocks, offset := SendWindow(s, addr, data, start, window, first);
    next := window;
    WindowDone(s.View(), ok, l, addr, data, first, blocks, was, all);
    Tried(log, first, blocks, ok);
    if l.plans == [] && l.device.open == None { WindowUndisturbed(l, addr, data, first, blocks); }
    r := Done;
    if !ok {
      s.Clear();
      ghost var mid := s.agent.ram;
      r, offset := RetryBlocks(s, addr, data, start, blocks, first);
      Among(addr, data, first, blocks);
      ConfinedWider(mid, s.agent.ram, CommandsAt(addr, data, first, blocks), all);
      ConfinedTrans(was, mid, s.agent.ram, all);
      if r == Done { next := WindowFor(|data| - offset); }
    }
  }

  /** What a window has done to the whole transfer. */
  lemma WindowDone(l': Link, ok: bool, l: Link, addr: nat, data: seq<Byte>, first: nat, n: nat,
                   was: seq<Byte>, all: seq<Command>)
    requires Sound(l.device) && Sound(l'.device) && InRam(addr, data) && n > 0 && first + n <= Blocks(data)
    requires Oks(l.queue) == 0 && Acks(l', ok) == TryWindow(l, addr, data, first, n)
    requires Held(l.device.ram, addr, data, first) && (first > 0 ==> l.device.open == None)
    requires Confined(was, l.device.ram, all)
    requires forall c :: c in CommandsAt(addr, data, 0, Blocks(data)) ==> c in all
    requires first == 0 ==> forall c :: c in Opened(l.device) ==> c in all
    ensures Confined(was, l'.device.ram, all) && Held(l'.device.ram, addr, data, first)
    ensures ok ==> Held(l'.device.ram, addr, data, first + n) && Oks(l'.queue) == 0 && l'.device.open == None
    ensures l'.plans == if l.plans == [] then [] else l.plans[1..]
  {
    hide Sound, InRam, Pieces, Confined, Held, CommandsAt, TryWindow, AllHold, Oks;
    SoundRam(l.device);
    SoundRam(l'.device);
    var cs := CommandsAt(addr, data, first, n);
    WindowTried(l, addr, data, first, n);
    Among(addr, data, first, n);
    ConfinedWider(l.device.ram, l'.device.ram, Opened(l.device) + cs, all);
    ConfinedTrans(was, l.device.ram, l'.device.ram, all);
    if first > 0 {
      assert Opened(l.device) + cs == cs;
      HeldKept(l.device.ram, l'.device.ram, addr, data, first, n);
    } else {
      NothingHeld(l'.device.ram, addr, data);
    }
    if ok { HeldMore(l'.device.ram, addr, data, first, n); }
  }

  /** The first window has as many blocks as it was cut for. */
  lemma WholeWindow(total: nat, blocks: nat)
    requires total > 0 && (blocks == WindowFor(total) || blocks == Pieces(total, BLOCK)) && blocks <= WindowFor(total)
    ensures blocks == WindowFor(total)
  {
  }

  lemma NothingAcked(log: seq<Attempt>)
    ensures Acked(log, 0)
  {
  }

  lemma NothingHeld(ram: seq<Byte>, addr: nat, data: seq<Byte>)
    requires IsRam(ram)
    ensures Held(ram, addr, data, 0)
  {
  }

  lemma UptoProgress(total: nat, first: nat, blocks: nat)
    requires first < Pieces(total, BLOCK) && blocks >= 1
    ensures Upto(total, BLOCK, first) < Upto(total, BLOCK, first + blocks)
  {
    PieceBounds(total, BLOCK, first);
    UptoMono(total, BLOCK, first + 1, first + blocks);
  }

  lemma Among(addr: nat, data: seq<Byte>, first: nat, blocks: nat)
    requires first + blocks <= Blocks(data)
    ensures forall c :: c in CommandsAt(addr, data, first, blocks) ==> c in CommandsAt(addr, data, 0, Blocks(data))
  {
    hide CommandAt, Blocks;
    var all := CommandsAt(addr, data, 0, Blocks(data));
    forall i | 0 <= i < blocks ensures CommandsAt(addr, data, first, blocks)[i] in all {
      assert all[first + i] == CommandAt(addr, data, 0 + (first + i));
    }
  }
}
