/** Two lost packets that write_memory does not recover from: the agent is left with a block
    open, and the retry command that follows at once is swallowed. */
module WriteSwallowed {
  import opened Bits
  import opened Framing
  import opened Options
  import opened Tiling
  import opened WriteAgent
  import opened WriteLink
  import opened WriteBlocks
  import opened WriteMemory
  import ReadMemory

  function Repeat<T>(n: nat, x: T): (s: seq<T>)
    ensures |s| == n && forall i :: 0 <= i < n ==> s[i] == x
  {
    seq(n, _ => x)
  }

  lemma {:induction false} DeliverTakes(sent: seq<Packet>, n: nat, rest: seq<Slot>)
    requires n <= |sent|
    ensures Deliver(sent, Repeat(n, Take) + rest) == Arrivals(sent[..n]) + Deliver(sent[n..], rest)
    decreases n
  {
    var plan := Repeat(n, Take) + rest;
    if n == 0 {
      assert plan == rest && sent[0..] == sent;
    } else {
      assert plan[0] == Take && plan[1..] == Repeat(n - 1, Take) + rest;
      DeliverTakes(sent[1..], n - 1, rest);
      assert sent[1..][n - 1..] == sent[n..] && sent[1..][..n - 1] == sent[1..n];
      assert [Arrive(sent[0])] + Arrivals(sent[1..n]) == Arrivals(sent[..n]);
    }
  }

  /** All packets but the first and the last arrive. */
  function Slots(n: nat): seq<Slot>
    requires n >= 2
  {
    [Lose] + (Repeat(n - 2, Take) + [Lose])
  }

  lemma InnerPackets(sent: seq<Packet>)
    requires |sent| >= 2
    ensures Deliver(sent, Slots(|sent|)) == Arrivals(sent[1..|sent| - 1])
  {
    hide Deliver, Arrivals, Repeat;
    var n := |sent|;
    LosesFirst(sent, Repeat(n - 2, Take) + [Lose]);
    DeliverTakes(sent[1..], n - 2, [Lose]);
    OneLost(sent[1..][n - 2..]);
    assert sent[1..][..n - 2] == sent[1..n - 1];
  }

  lemma LosesFirst(sent: seq<Packet>, rest: seq<Slot>)
    requires sent != []
    ensures Deliver(sent, [Lose] + rest) == Deliver(sent[1..], rest)
  {
    assert ([Lose] + rest)[1..] == rest;
  }

  lemma OneLost(last: seq<Packet>)
    ensures Deliver(last, [Lose]) == []
  {
    assert [Lose][1..] == [];
  }

  /** Data without a command: an idle agent refuses each packet. */
  lemma {:induction false} Strays(ram: seq<Byte>, block: seq<Byte>, j: nat)
    requires IsRam(ram) && j <= Pieces(|block|, CHUNK)
    ensures var t := Serve(Device(ram, None), Arrivals(Stream(block)[j..]));
            && t.device == Device(ram, None)
            && (j < Pieces(|block|, CHUNK) ==> t.replies != [] && t.replies[0] == ACK_CRC_ERROR)
    decreases Pieces(|block|, CHUNK) - j
  {
    hide Pieces, IsRam, Stream, Arrivals, ReadMemory.Piece, Serve;
    var d := Device(ram, None);
    if j < Pieces(|block|, CHUNK) {
      StreamFrom(block, j);
      PieceCommand(block, j);
      ServeCons(d, Arrivals(Stream(block)[j..]));
      Strays(ram, block, j + 1);
    } else {
      NothingLeft(block, d);
    }
  }

  lemma PieceCommand(block: seq<Byte>, j: nat)
    ensures ReadMemory.Piece(block, CHUNK, j).cmd == RSP_DATA
  {
  }

  /** A block short of its last packet stays open. */
  lemma {:induction false} ShortBlock(ram: seq<Byte>, c: Command, block: seq<Byte>, j: nat)
    requires IsRam(ram) && Accepts(c) && |block| == c.size && j < Pieces(|block|, CHUNK)
    requires Upto(|block|, CHUNK, j) < c.size
    ensures var n := Pieces(|block|, CHUNK) - 1;
            Serve(Device(ram, Some(Open(c, Upto(|block|, CHUNK, j)))), Arrivals(Stream(block)[j..n])).device.open.Some?
    decreases Pieces(|block|, CHUNK) - j
  {
    hide Upto, Pieces, IsRam, Stream, Arrivals, ReadMemory.Piece, Serve, Verdict;
    var n, d := Pieces(|block|, CHUNK) - 1, Device(ram, Some(Open(c, Upto(|block|, CHUNK, j))));
    if j == n {
      assert Stream(block)[j..n] == [];
      NothingServed(d);
    } else {
      PieceBounds(|block|, CHUNK, j);
      PieceBounds(|block|, CHUNK, j + 1);
      TakesPiece(d, block, j);
      StreamUpto(block, j, n);
      ServeCons(d, Arrivals(Stream(block)[j..n]));
      var t := OnEvent(d, Arrive(ReadMemory.Piece(block, CHUNK, j)));
      ShortBlock(t.device.ram, c, block, j + 1);
    }
  }

  lemma NothingServed(d: Device)
    requires Sound(d)
    ensures Serve(d, Arrivals([])) == Turn(d, [])
  {
    hide Sound;
  }

  lemma StreamUpto(block: seq<Byte>, j: nat, n: nat)
    requires j < n <= Pieces(|block|, CHUNK)
    ensures var s := Stream(block);
            && Arrivals(s[j..n]) != [] && Arrivals(s[j..n])[0] == Arrive(ReadMemory.Piece(block, CHUNK, j))
            && Arrivals(s[j..n])[1..] == Arrivals(s[j + 1..n])
  {
    hide ReadMemory.Piece;
    var s := Stream(block);
    assert s[j..n][1..] == s[j + 1..n];
  }

  /** The packets between the first and the last of two blocks. */
  lemma TwoBlocks(addr: nat, data: seq<Byte>)
    requires Blocks(data) == 2
    ensures var sent, s0, s1 := WindowList(addr, data, 0, 2), Stream(BlockAt(data, 0)), Stream(BlockAt(data, 1));
            && |s0| > 0 && |s1| > 0 && |sent| == |s0| + |s1| + 2
            && sent[1..|sent| - 1] == s0 + ([WritePacket(CommandAt(addr, data, 1))] + s1[..|s1| - 1])
  {
    hide Stream, BlockAt, CommandAt, WritePacket, Pieces;
    WindowCons(addr, data, 0, 1);
    OneBlock(addr, data, 1);
    SomePackets(data, 0);
    SomePackets(data, 1);
  }

  lemma SomePackets(data: seq<Byte>, k: nat)
    requires k < Blocks(data)
    ensures BlockAt(data, k) != [] && |Stream(BlockAt(data, k))| > 0
  {
    hide Pieces;
    PieceBounds(|data|, BLOCK, k);
    PieceBounds(|BlockAt(data, k)|, CHUNK, 0);
  }

  /** What an idle agent makes of them: a refusal first, and a block left open. */
  lemma LeftOpen(ram: seq<Byte>, addr: nat, data: seq<Byte>)
    requires IsRam(ram) && InRam(addr, data) && Blocks(data) == 2
    ensures var sent := WindowList(addr, data, 0, 2);
            && |sent| >= 2
            && var t := Serve(Device(ram, None), Arrivals(sent[1..|sent| - 1]));
               t.device.open.Some? && t.replies != [] && t.replies[0] == ACK_CRC_ERROR
  {
    hide Stream, BlockAt, CommandAt, WritePacket, CommandOf, Pieces, Serve, Arrivals, WindowList, InRam, IsRam;
    TwoBlocks(addr, data);
    var c, p := CommandAt(addr, data, 1), WritePacket(CommandAt(addr, data, 1));
    var s0, b1 := Stream(BlockAt(data, 0)), BlockAt(data, 1);
    var n := |Stream(b1)| - 1;
    Strays(ram, BlockAt(data, 0), 0);
    assert s0[0..] == s0 && Stream(b1)[0..n] == Stream(b1)[..n];
    Sendable(addr, data, 1);
    BlockAccepted(addr, data, 1);
    BlockMatches(addr, data, 1);
    CommandServed(ram, c);
    assert Upto(|b1|, CHUNK, 0) == 0 by { UptoZero(|b1|); }
    SomePackets(data, 1);
    ShortBlock(ram, c, b1, 0);
    var d := Device(ram, None);
    ArrivalsAppend([p], Stream(b1)[..n]);
    ServeAppend(d, Arrivals([p]), Arrivals(Stream(b1)[..n]));
    ArrivalsAppend(s0, [p] + Stream(b1)[..n]);
    ServeAppend(d, Arrivals(s0), Arrivals([p] + Stream(b1)[..n]));
  }

  /** For all data of two blocks: of the window's packets the first command and the last data
      packet are lost, every reply and every later packet arrives. The host breaks off at the
      first reply and retries at once, and the agent, waiting in the second block, takes no
      notice of the command. */
  lemma TwoLost(ram: seq<Byte>, addr: nat, data: seq<Byte>) returns (l: Link)
    requires IsRam(ram) && InRam(addr, data) && Blocks(data) == 2
    ensures |WindowList(addr, data, 0, 2)| >= 2
    ensures l.device == Device(ram, None) && l.queue == [] && l.waits == []
    ensures |l.plans| == 1 && l.plans[0].slots == Slots(|WindowList(addr, data, 0, 2)|)
    ensures l.plans[0].keep == Repeat(|Serve(l.device, Events(l, WindowList(addr, data, 0, 2))).replies|, true)
    ensures !Recovers(l, addr, data)
  {
    hide WindowList, Serve, Arrivals, Deliver, Slots, Pieces, InRam, IsRam;
    var sent := WindowList(addr, data, 0, 2);
    LeftOpen(ram, addr, data);
    InnerPackets(sent);
    var t := Serve(Device(ram, None), Arrivals(sent[1..|sent| - 1]));
    l := Link(Device(ram, None), [], [Plan(Slots(|sent|), Repeat(|t.replies|, true))], []);
    var l1 := Exchanged(l, sent);
    assert l1.queue[0] == ACK_CRC_ERROR by { FirstHeard(t.replies, l.plans[0].keep); }
    IdleAfterReading(l1, 2);
    assert WindowFor(|data|) == 2 by { TwoBlockWindow(data); }
  }

  lemma FirstHeard(replies: seq<Byte>, keep: seq<bool>)
    requires replies != [] && keep != [] && keep[0]
    ensures Heard(replies, keep) != [] && Heard(replies, keep)[0] == replies[0]
  {
  }

  lemma TwoBlockWindow(data: seq<Byte>)
    requires Blocks(data) == 2
    ensures WindowFor(|data|) == 2 && data != []
  {
  }
}
