/** write_flash on the host and handle_flash_stream on the agent, as two step
    machines joined by a byte wire into the agent's receive ring and a queue of
    reply packets back. */
module StreamModel {
  import opened Bits
  import opened Framing
  import opened Options
  import opened Nor
  import opened Tiling
  import Cobs

  /** Bytes of image data in one DATA packet. */
  const CHUNK := 512
  /** Distance between the agent's two receive buffers. */
  const SPACING := 0x20000
  /** The agent's frame buffer, MAX_PAYLOAD + 32. */
  const RX_FRAME := 1056
  /** The buffer it is decoded into, MAX_PAYLOAD + 16. */
  const RX_RAW := 1040
  const MAX_IMAGE := 32 * 1024 * 1024

  /** One transfer: where, what, the flash geometry, the flash before it, the size of
      the agent's receive ring, and the sector bitmap in the command. */
  datatype Config = Config(addr: nat, image: seq<Byte>, sector: nat, page: nat, cells: seq<Byte>, ring: nat,
                           bitmap: seq<Byte>)
  {
    /** The agent's sector size is the one the host made the bitmap with, and the end of the
        image fits its 32-bit address. */
    predicate Valid()
    {
      && page > 0 && page % 4 == 0 && sector > 0 && sector % page == 0 && sector % CHUNK == 0
      && sector <= 0x20000
      && addr % sector == 0 && |cells| % sector == 0
      && |image| <= MAX_IMAGE && addr + |image| < 0x1_0000_0000 && ring >= 2 && bitmap == Bitmap()
    }

    /** The agent's checks on the command. */
    predicate Accepted()
    {
      |image| > 0 && addr + |image| <= |cells| && sector > 0 && (Sectors() + 7) / 8 <= |bitmap|
    }

    function Sectors(): nat
      requires sector > 0
    {
      Pieces(|image|, sector)
    }

    /** Where sector s starts in the image, and where it ends. */
    function Lo(s: nat): (l: nat)
      ensures l <= |image|
    {
      Upto(|image|, sector, s)
    }

    function Hi(s: nat): (h: nat)
      ensures Lo(s) <= h <= |image| && h - Lo(s) <= sector
    {
      if Lo(s) + sector <= |image| then Lo(s) + sector else |image|
    }

    function Data(s: nat): (d: seq<Byte>)
      ensures |d| == Hi(s) - Lo(s)
    {
      image[Lo(s)..Hi(s)]
    }

    /** The host's sector bitmap after m sectors: bit set for a sector with data. */
    function BitmapUpTo(m: nat): (b: seq<Byte>)
      requires sector > 0 && m <= Sectors()
      ensures |b| == (Sectors() + 7) / 8
    {
      if m == 0 then Fill((Sectors() + 7) / 8, 0)
      else
        var b := BitmapUpTo(m - 1);
        if AllFf(Data(m - 1)) then b else MarkByte(b, m - 1)
    }

    function Bitmap(): seq<Byte>
      requires sector > 0
    {
      BitmapUpTo(Sectors())
    }

    /** Both sides test bitmap[s / 8] & (1 << (s % 8)). */
    predicate Flagged(s: nat)
      requires sector > 0
    {
      s < Sectors() && s / 8 < |bitmap| && Bit(bitmap[s / 8], s % 8)
    }

    /** DATA packets for sector s: none for a skipped sector. */
    function Packets(s: nat): nat
      requires sector > 0
    {
      if Flagged(s) then (|Data(s)| + CHUNK - 1) / CHUNK else 0
    }

    function ChunkAt(s: nat, k: nat): (d: seq<Byte>)
      ensures |d| <= CHUNK
    {
      var d := Data(s);
      if k * CHUNK >= |d| then []
      else if k * CHUNK + CHUNK <= |d| then d[k * CHUNK..k * CHUNK + CHUNK]
      else d[k * CHUNK..]
    }

    /** DATA packet k of sector s: a 16-bit number, then the bytes. */
    function DataPacket(s: nat, k: nat): Packet
    {
      var n := Lo(s) / CHUNK + k;
      Packet(RSP_DATA, [n % 256, n / 256 % 256] + ChunkAt(s, k))
    }

    /** The wire bytes of each packet of sector s. */
    function Frames(s: nat): nat -> seq<Byte>
    {
      k => Build(DataPacket(s, k))
    }

    /** Packets i..k of sector s on the wire. */
    function WireOf(s: nat, i: nat, k: nat): seq<Byte>
    {
      Glue(Frames(s), i, k)
    }
  }

  /** f(i) + f(i+1) + ... + f(k-1). */
  function Glue(f: nat -> seq<Byte>, i: nat, k: nat): seq<Byte>
    decreases k - i
  {
    if i >= k then [] else f(i) + Glue(f, i + 1, k)
  }

  function MarkByte(b: seq<Byte>, s: nat): (r: seq<Byte>)
    requires s / 8 < |b|
    ensures |r| == |b|
  {
    SetBitBound8(b[s / 8], s % 8);
    b[s / 8 := SetBit(b[s / 8], s % 8)]
  }

  lemma SetBitBound8(b: Byte, k: nat)
    requires k < 8
    ensures SetBit(b, k) < 256
  {
    assert Pow2(8) == 256;
    SetBitBound(b, k, 8);
  }

  datatype Reply = Progress(done: nat, total: nat) | Ack(status: Byte)

  datatype HostPc = WaitAck | Send | WaitProgress | WaitFinal | Finished(ok: bool)

  /** The host is at sector s and has sent k of its packets. */
  datatype Host = Host(pc: HostPc, s: nat, k: nat)

  datatype AgentPc =
    | Check | Top | SkipErase | SkipReport | Recv | Report | Program
    | Stopped(ok: bool, reported: nat)

  /** The variables of handle_flash_stream; `frame` is proto_recv's partial frame
      and `ram` holds the two receive buffers. */
  datatype Agent = Agent(pc: AgentPc, s: nat, got: nat, rx: nat,
                         pending: int, pendingAddr: nat, pendingBytes: nat,
                         ram: seq<Byte>, frame: seq<Byte>)

  /** `sent` is every reply the agent ever sent, `replies` the unread ones. */
  datatype State = State(host: Host, agent: Agent, wire: seq<Byte>, ring: seq<Byte>,
                         replies: seq<Reply>, sent: seq<Reply>, cells: seq<Byte>)

  /** A byte on the wire arrives, is lost, arrives as another one, or is a framing error to
      the agent's UART; a reply can be lost. */
  datatype Action =
    | HostStep | AgentStep | Arrive | Lose | Garble(b: Byte) | Break | LoseReply(i: nat)
    | AgentTimeout | HostTimeout | EraseFails(junk: seq<Byte>)

  predicate Init(c: Config, st: State)
  {
    && st.host == Host(WaitAck, 0, 0)
    && st.agent.pc == Check && |st.agent.ram| == 2 * SPACING && st.agent.frame == []
    && st.wire == [] && st.ring == [] && st.replies == [] && st.sent == [] && st.cells == c.cells
  }

  // ---- Host ----------------------------------------------------------------

  function HostAt(c: Config, s: nat): Host
    requires c.sector > 0
  {
    if s < c.Sectors() then Host(Send, s, 0) else Host(WaitFinal, s, 0)
  }

  function HostDo(c: Config, st: State): Option<State>
    requires c.sector > 0
  {
    var h := st.host;
    match h.pc
    case Finished(_) => None
    case Send =>
      if h.k < c.Packets(h.s)
      then Some(st.(host := h.(k := h.k + 1), wire := st.wire + c.Frames(h.s)(h.k)))
      else Some(st.(host := h.(pc := WaitProgress)))
    case _ =>
      if st.replies == [] then None
      else
        var st' := st.(replies := st.replies[1..]);
        match (h.pc, st.replies[0])
        case (WaitAck, Ack(status)) =>
          Some(st'.(host := if status == ACK_OK then HostAt(c, 0) else h.(pc := Finished(false))))
        case (WaitAck, Progress(_, _)) => Some(st'.(host := h.(pc := Finished(false))))
        case (WaitProgress, Progress(_, _)) => Some(st'.(host := HostAt(c, h.s + 1)))
        case (_, Progress(_, _)) => Some(st')
        case (_, Ack(status)) => Some(st'.(host := h.(pc := Finished(status == ACK_OK))))
  }

  // ---- Agent ---------------------------------------------------------------

  function Emit(st: State, r: Reply): State
  {
    st.(replies := st.replies + [r], sent := st.sent + [r])
  }

  function Stop(st: State, ok: bool, reported: nat): State
  {
    var st' := Emit(st, Ack(if ok then ACK_OK else ACK_FLASH_ERROR));
    st'.(agent := st.agent.(pc := Stopped(ok, reported), frame := []))
  }

  function ProgressOf(c: Config, s: nat): Reply
    requires c.sector > 0
  {
    Progress((s + 1) % 65536, c.Sectors() % 65536)
  }

  /** erase_and_program on the pending buffer; None would be a wild access. */
  function Flush(c: Config, st: State): Option<seq<Byte>>
    requires c.page > 0
  {
    var a := st.agent;
    if a.pending < 0 then Some(st.cells)
    else if a.pending * SPACING + a.pendingBytes <= |a.ram| && a.pendingBytes <= c.sector
            && a.pendingAddr + c.sector <= |st.cells|
    then
      var data := a.ram[a.pending * SPACING..a.pending * SPACING + a.pendingBytes];
      Some(Splice(st.cells, a.pendingAddr, SectorAfter(data, c.sector, c.page)))
    else None
  }

  /** A delivered frame: DATA bytes go to the receive buffer, an unparsable frame
      (proto_recv returning 0) ends the transfer, anything else is ignored. None is a write
      behind the decode buffer or the receive buffer. */
  function Deliver(c: Config, st: State, frame: seq<Byte>): Option<State>
  {
    var a := st.agent;
    if Cobs.Reach(frame) > RX_RAW then None
    else match Parse(frame)
    case None => Some(Stop(st, false, a.s))
    case Some(p) =>
      if p.cmd == 0 then Some(Stop(st, false, a.s))
      else if p.cmd != RSP_DATA || |p.data| <= 2 then Some(st.(agent := a.(frame := [])))
      else
        var room := |c.Data(a.s)| - a.got;
        var bytes := if |p.data| - 2 <= room then p.data[2..] else if room >= 0 then p.data[2..2 + room] else [];
        var at := a.rx * SPACING + a.got;
        if at + |bytes| <= |a.ram|
        then Some(st.(agent := a.(got := a.got + |bytes|, ram := Splice(a.ram, at, bytes), frame := [])))
        else None
  }

  function Receive(c: Config, st: State): Option<State>
  {
    var a := st.agent;
    if a.got >= |c.Data(a.s)| then Some(st.(agent := a.(pc := Report)))
    else if st.ring == [] then None
    else
      var st' := st.(ring := st.ring[1..]);
      if st.ring[0] == 0 then
        if a.frame == [] then Some(st') else Deliver(c, st', a.frame)
      else if |a.frame| + 1 < RX_FRAME then Some(st'.(agent := a.(frame := a.frame + [st.ring[0]])))
      else Deliver(c, st', a.frame + [st.ring[0]])
  }

  /** The agent's next step takes the last byte of a frame out of the ring. */
  predicate EndsFrame(c: Config, st: State)
  {
    && st.agent.pc == Recv && st.agent.got < |c.Data(st.agent.s)| && st.ring != []
    && (st.ring[0] == 0 || |st.agent.frame| + 1 >= RX_FRAME)
  }

  /** What the agent is about to parse. */
  function Parsed(st: State): seq<Byte>
    requires st.ring != []
  {
    if st.ring[0] == 0 then st.agent.frame else st.agent.frame + [st.ring[0]]
  }

  /** The frame about to be decoded does not fit the decode buffer. */
  predicate Overruns(c: Config, st: State)
  {
    EndsFrame(c, st) && Cobs.Reach(Parsed(st)) > RX_RAW
  }

  function AgentDo(c: Config, st: State): Option<State>
    requires c.page > 0 && c.sector > 0
  {
    var a := st.agent;
    match a.pc
    case Stopped(_, _) => None
    case Check =>
      if !c.Accepted() then Some(Stop(st, false, 0))
      else Some(Emit(st, Ack(ACK_OK)).(agent := a.(pc := Top, s := 0, got := 0, rx := 0, pending := -1)))
    case Top =>
      if a.s >= c.Sectors() then
        match Flush(c, st)
        case None => None
        case Some(cells) => Some(Stop(st.(cells := cells), true, a.s))
      else if c.Flagged(a.s) then Some(st.(agent := a.(pc := Recv, got := 0)))
      else
        (match Flush(c, st)
         case None => None
         case Some(cells) => Some(st.(cells := cells, agent := a.(pc := SkipErase, pending := -1))))
    case SkipErase =>
      var at := c.addr + a.s * c.sector;
      if at + c.sector <= |st.cells|
      then Some(st.(cells := Splice(st.cells, at, Fill(c.sector, 255)), agent := a.(pc := SkipReport)))
      else None
    case SkipReport =>
      Some(Emit(st, ProgressOf(c, a.s)).(agent := a.(pc := Top, s := a.s + 1)))
    case Recv => Receive(c, st)
    case Report =>
      Some(Emit(st, ProgressOf(c, a.s)).(agent := a.(pc := Program)))
    case Program =>
      match Flush(c, st)
      case None => None
      case Some(cells) =>
        Some(st.(cells := cells,
                 agent := a.(pc := Top, s := a.s + 1, rx := if a.rx == 0 then 1 else 0, pending := a.rx,
                             pendingAddr := c.addr + a.s * c.sector, pendingBytes := |c.Data(a.s)|)))
  }

  /** The sector the agent erases next, if its next step erases one. */
  function EraseTarget(c: Config, a: Agent): Option<nat>
    requires c.sector > 0
  {
    if a.pc == SkipErase then Some(c.addr + a.s * c.sector)
    else if a.pending >= 0 && (a.pc == Program || (a.pc == Top && !c.Flagged(a.s))) then Some(a.pendingAddr)
    else None
  }

  // ---- The joint machine ---------------------------------------------------

  /** soft_rx_drain: a full ring drops the byte. */
  function Into(ring: seq<Byte>, b: Byte, size: nat): seq<Byte>
  {
    if |ring| + 1 < size then ring + [b] else ring
  }

  /** proto_recv looks at the UART itself: it drops its partial frame on a framing error,
      where soft_rx_drain only loses the byte. */
  predicate Waits(c: Config, st: State)
  {
    st.agent.pc == Recv && st.agent.got < |c.Data(st.agent.s)| && st.ring == []
  }

  /** One step of a host that works with h and an agent that works with a. */
  function DoBoth(h: Config, a: Config, st: State, act: Action): Option<State>
    requires h.sector > 0 && a.page > 0 && a.sector > 0
  {
    match act
    case HostStep => HostDo(h, st)
    case AgentStep => AgentDo(a, st)
    case Arrive =>
      if st.wire == [] then None
      else Some(st.(wire := st.wire[1..], ring := Into(st.ring, st.wire[0], a.ring)))
    case Lose => if st.wire == [] then None else Some(st.(wire := st.wire[1..]))
    case Garble(b) =>
      if st.wire == [] then None
      else Some(st.(wire := st.wire[1..], ring := Into(st.ring, b, a.ring)))
    case Break =>
      if st.wire == [] || !Waits(a, st) then None
      else Some(st.(wire := st.wire[1..], agent := st.agent.(frame := [])))
    case LoseReply(i) =>
      if i < |st.replies| then Some(st.(replies := st.replies[..i] + st.replies[i + 1..])) else None
    case AgentTimeout =>
      if st.agent.pc == Recv && st.agent.got < |a.Data(st.agent.s)|
      then Some(Stop(st, false, st.agent.s)) else None
    case HostTimeout =>
      if st.host.pc.WaitAck? || st.host.pc.WaitProgress? || st.host.pc.WaitFinal?
      then Some(st.(host := st.host.(pc := Finished(false)))) else None
    case EraseFails(junk) =>
      match EraseTarget(a, st.agent)
      case Some(at) =>
        if |junk| == a.sector && at + a.sector <= |st.cells|
        then Some(Stop(st.(cells := Splice(st.cells, at, junk)), false, Reported(st.agent)))
        else None
      case None => None
  }

  /** Host and agent agree about the transfer. */
  function Do(c: Config, st: State, act: Action): Option<State>
    requires c.page > 0 && c.sector > 0
  {
    DoBoth(c, c, st, act)
  }

  /** Progress replies sent so far. */
  function Reported(a: Agent): nat
  {
    match a.pc
    case Stopped(_, r) => r
    case Program => a.s + 1
    case Check => 0
    case _ => a.s
  }

  /** The run of a host and an agent that need not agree. */
  function RunBoth(h: Config, a: Config, st: State, acts: seq<Action>): Option<State>
    requires h.sector > 0 && a.page > 0 && a.sector > 0
    decreases |acts|
  {
    if acts == [] then Some(st)
    else match DoBoth(h, a, st, acts[0])
      case None => None
      case Some(st') => RunBoth(h, a, st', acts[1..])
  }

  function Run(c: Config, st: State, acts: seq<Action>): Option<State>
    requires c.page > 0 && c.sector > 0
    decreases |acts|
  {
    if acts == [] then Some(st)
    else match Do(c, st, acts[0])
      case None => None
      case Some(st') => Run(c, st', acts[1..])
  }
}
