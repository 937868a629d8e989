/** The invariant of a flash stream: who has sent what, what is in flight, what
    the two buffers hold and which sectors are final. Every step keeps it. */
module StreamSteps {
  import opened Bits
  import opened Framing
  import opened StreamModel
  import opened StreamInvariant
  import Cobs

  /** Replies the agent has sent: the start ACK, one progress packet per reported
      sector in order, and at most one final ACK. */
  ghost function LogOf(c: Config, r: nat, pc: AgentPc): seq<Reply>
    requires c.sector > 0
  {
    [Ack(ACK_OK)] + Reports(c, r) + LastWord(pc)
  }

  ghost function Reports(c: Config, r: nat): (l: seq<Reply>)
    requires c.sector > 0
    ensures |l| == r
  {
    seq(r, i requires 0 <= i => ProgressOf(c, i))
  }

  ghost function LastWord(pc: AgentPc): seq<Reply>
  {
    match pc
    case Stopped(ok, _) => [Ack(if ok then ACK_OK else ACK_FLASH_ERROR)]
    case _ => []
  }

  ghost function Read(h: Host): nat
  {
    if h.pc == WaitAck then 0 else 1 + h.s
  }

  ghost predicate LogOk(c: Config, h: Host, a: Agent, replies: seq<Reply>, sent: seq<Reply>)
    requires c.sector > 0
  {
    && sent == LogOf(c, Reported(a), a.pc)
    && (!h.pc.Finished? ==> Read(h) <= |sent| && replies == sent[Read(h)..])
    && (h.pc == Finished(true) ==> replies == [])
  }

  /** The host is at a sector whose predecessors are all reported, and the agent
      never runs past a sector with data that the host has not sent. */
  ghost predicate HostOk(c: Config, h: Host, a: Agent)
    requires c.sector > 0
  {
    && h.s <= Reported(a) <= c.Sectors() && h.k <= c.Packets(h.s)
    && (h.pc == Send || h.pc == WaitProgress ==> h.s < c.Sectors())
    && (h.pc == WaitProgress ==> h.k == c.Packets(h.s))
    && (h.pc == WaitAck ==> h.s == 0 && h.k == 0)
    && (h.pc == WaitFinal ==> h.s == c.Sectors())
    && (h.pc == Finished(true) ==> a.pc == Stopped(true, c.Sectors()))
    && (a.pc == Report || a.pc == Program ==> a.s <= h.s)
    && (forall j :: h.s < j < Reported(a) ==> c.Packets(j) == 0)
  }

  ghost predicate AgentOk(c: Config, a: Agent)
    requires c.sector > 0
  {
    && a.s <= c.Sectors() && (a.rx == 0 || a.rx == 1) && -1 <= a.pending <= 1
    && |a.ram| == 2 * SPACING
    && (a.pc == SkipErase || a.pc == SkipReport ==> a.s < c.Sectors() && !c.Flagged(a.s) && a.pending == -1)
    && (a.pc == Recv || a.pc == Report || a.pc == Program ==> a.s < c.Sectors() && c.Flagged(a.s))
  }

  /** Packets whose bytes make up the first `got` bytes of a sector. */
  function PacketsIn(got: nat): nat
  {
    (got + CHUNK - 1) / CHUNK
  }

  /** Only packets of the host's current sector are in flight, in order, and the
      agent's partial frame is the front of the first of them. */
  ghost predicate FlightOk(c: Config, h: Host, a: Agent, flight: seq<Byte>)
    requires c.sector > 0
  {
    a.pc.Stopped? ||
    if a.pc == Recv && a.s == h.s then
      && PacketsIn(a.got) <= h.k && flight == c.WireOf(h.s, PacketsIn(a.got), h.k)
      && Cobs.NoZero(a.frame)
    else
      && a.frame == [] && (a.pc == Recv ==> a.got == 0)
      && if Reported(a) > h.s || (a.pc == Report && a.s == h.s)
         then flight == [] && h.k == c.Packets(h.s)
         else flight == c.WireOf(h.s, 0, h.k)
  }

  /** A pending sector is complete in the buffer that is not in use. */
  ghost predicate PendingHolds(c: Config, a: Agent)
    requires c.sector > 0
  {
    a.pending >= 0 && !a.pc.Stopped? ==>
      && a.pending != a.rx && a.s > 0
      && a.pendingAddr == c.addr + (a.s - 1) * c.sector && a.pendingBytes == |c.Data(a.s - 1)|
      && a.pending * SPACING + a.pendingBytes <= |a.ram|
      && a.ram[a.pending * SPACING..a.pending * SPACING + a.pendingBytes] == c.Data(a.s - 1)
  }

  /** The receive buffer in use holds the sector read so far; a pending sector is
      in the other one, complete. */
  ghost predicate BufferOk(c: Config, a: Agent)
    requires c.sector > 0
  {
    && (a.pc == Recv || a.pc == Report || a.pc == Program ==>
          && a.got <= |c.Data(a.s)| && a.rx * SPACING + a.got <= |a.ram|
          && a.ram[a.rx * SPACING..a.rx * SPACING + a.got] == c.Data(a.s)[..a.got]
          && (a.got % CHUNK == 0 || a.got == |c.Data(a.s)|))
    && (a.pc == Report || a.pc == Program ==> a.got == |c.Data(a.s)|)
    && PendingHolds(c, a)
  }

  /** Sectors already final in flash. */
  ghost function Settled(a: Agent): int
  {
    match a.pc
    case SkipReport => a.s + 1
    case _ => if a.pending >= 0 then a.s - 1 else a.s
  }

  ghost predicate OutsideKept(c: Config, cells: seq<Byte>)
    requires c.sector > 0
  {
    && |cells| == |c.cells|
    && forall i :: 0 <= i < |cells| && !(c.addr <= i < c.addr + c.Sectors() * c.sector) ==> cells[i] == c.cells[i]
  }

  ghost predicate CellsOk(c: Config, a: Agent, cells: seq<Byte>)
    requires c.Valid() && c.Accepted()
  {
    CoverFits(c);
    if a.pc.Stopped? then
      if a.pc.ok then a.pc.reported == c.Sectors() && cells == Final(c, c.Sectors())
      else OutsideKept(c, cells)
    else SettledAt(c, Settled(a), cells)
  }

  ghost predicate SettledAt(c: Config, m: int, cells: seq<Byte>)
    requires c.Valid()
  {
    0 <= m <= c.Sectors() && c.addr + m * c.sector <= |c.cells| && cells == Final(c, m)
  }

  function Flight(st: State): seq<Byte>
  {
    st.agent.frame + st.ring + st.wire
  }

  ghost predicate Running(c: Config, st: State)
    requires c.Valid() && c.Accepted()
  {
    && st.agent.pc != Check
    && LogOk(c, st.host, st.agent, st.replies, st.sent) && HostOk(c, st.host, st.agent)
    && AgentOk(c, st.agent) && FlightOk(c, st.host, st.agent, Flight(st))
    && BufferOk(c, st.agent) && CellsOk(c, st.agent, st.cells)
  }

  /** Before the agent has looked at the command, and after it refused it. */
  ghost predicate Quiet(c: Config, st: State)
  {
    && st.wire == [] && st.ring == [] && st.cells == c.cells && st.host.s == 0 && st.host.k == 0
    && match st.agent.pc
       case Check =>
         && |st.agent.ram| == 2 * SPACING && st.agent.frame == [] && st.replies == [] && st.sent == []
         && (st.host.pc == WaitAck || st.host.pc == Finished(false))
       case Stopped(false, 0) =>
         && !c.Accepted()
         && (st.host.pc == Finished(false) || (st.host.pc == WaitAck && st.replies == [Ack(ACK_FLASH_ERROR)]))
       case _ => false
  }

  ghost predicate Inv(c: Config, st: State)
    requires c.Valid()
  {
    Quiet(c, st) || (c.Accepted() && Running(c, st))
  }

  /** The ring has room for a whole sector of packets. */
  predicate RingFits(c: Config)
  {
    523 * (c.sector / CHUNK) < c.ring
  }

  // ---- Host steps ------------------------------------------------------------

  lemma PacketsBound(c: Config, s: nat)
    requires c.Valid()
    ensures c.Packets(s) <= c.sector / CHUNK
    ensures s >= c.Sectors() ==> c.Packets(s) == 0
  {
  }

  lemma FlightSend(c: Config, h: Host, a: Agent, flight: seq<Byte>)
    requires c.Valid() && HostOk(c, h, a) && FlightOk(c, h, a, flight)
    requires h.pc == Send && h.k < c.Packets(h.s)
    ensures HostOk(c, h.(k := h.k + 1), a) && FlightOk(c, h.(k := h.k + 1), a, flight + c.Frames(h.s)(h.k))
  {
    hide Config.Packets, Config.Frames, Config.Sectors, Config.Valid, Glue, PacketsIn, Cobs.NoZero;
    var i := if a.pc == Recv && a.s == h.s then PacketsIn(a.got) else 0;
    if i <= h.k { GlueSnoc(c.Frames(h.s), i, h.k); }
  }

  lemma HostSends(c: Config, st: State)
    requires c.Valid() && c.Accepted() && Running(c, st)
    requires st.host.pc == Send && st.host.k < c.Packets(st.host.s)
    ensures Running(c, HostDo(c, st).value)
  {
    hide LogOk, HostOk, AgentOk, FlightOk, BufferOk, CellsOk, Config.Frames, Config.Packets;
    var h, a := st.host, st.agent;
    FlightSend(c, h, a, Flight(st));
    assert Flight(HostDo(c, st).value) == Flight(st) + c.Frames(h.s)(h.k);
    LogSame(c, h, h.(k := h.k + 1), a, st.replies, st.sent);
  }

  lemma HostWaits(c: Config, st: State)
    requires c.Valid() && c.Accepted() && Running(c, st)
    requires st.host.pc == Send && st.host.k >= c.Packets(st.host.s)
    ensures Running(c, HostDo(c, st).value)
  {
    hide LogOk, HostOk, AgentOk, FlightOk, BufferOk, CellsOk, Config.Frames, Config.Packets;
    var h, a := st.host, st.agent;
    HostPcOnly(c, h, h.(pc := WaitProgress), a, Flight(st));
    LogSame(c, h, h.(pc := WaitProgress), a, st.replies, st.sent);
  }

  lemma LogSame(c: Config, h: Host, h': Host, a: Agent, replies: seq<Reply>, sent: seq<Reply>)
    requires c.sector > 0 && LogOk(c, h, a, replies, sent)
    requires h'.pc == Finished(false) || (!h.pc.Finished? && !h'.pc.Finished? && Read(h) == Read(h'))
    ensures LogOk(c, h', a, replies, sent)
  {
  }

  /** Only the host's control point changes. */
  lemma HostPcOnly(c: Config, h: Host, h': Host, a: Agent, flight: seq<Byte>)
    requires c.Valid() && HostOk(c, h, a) && FlightOk(c, h, a, flight)
    requires h'.s == h.s && h'.k == h.k
    requires h'.pc == WaitProgress ==> h.pc == Send && h.k >= c.Packets(h.s)
    requires h'.pc == Finished(true) ==> a.pc == Stopped(true, c.Sectors())
    requires h'.pc == WaitProgress || h'.pc.Finished?
    ensures HostOk(c, h', a) && FlightOk(c, h', a, flight)
  {
  }

  /** What the host finds in front of the reply queue. */
  lemma NextReply(c: Config, h: Host, a: Agent, replies: seq<Reply>, sent: seq<Reply>)
    requires c.sector > 0 && LogOk(c, h, a, replies, sent) && HostOk(c, h, a)
    requires !h.pc.Finished? && replies != []
    ensures Read(h) < |sent| && replies[1..] == sent[Read(h) + 1..]
    ensures h.pc == WaitAck ==> replies[0] == Ack(ACK_OK)
    ensures h.pc != WaitAck && h.s < Reported(a) ==> replies[0] == ProgressOf(c, h.s)
    ensures h.pc != WaitAck && h.s >= Reported(a) ==>
              && a.pc.Stopped? && h.s == Reported(a)
              && replies[0] == Ack(if a.pc.ok then ACK_OK else ACK_FLASH_ERROR)
  {
    assert replies[0] == sent[Read(h)];
  }

  /** After a reply the host enters the next sector, or waits for the final ACK. */
  lemma HostEnters(c: Config, h: Host, a: Agent, flight: seq<Byte>)
    requires c.Valid() && c.Accepted() && HostOk(c, h, a) && FlightOk(c, h, a, flight)
    requires h.pc == WaitAck || (h.pc == WaitProgress && h.s < Reported(a))
    ensures var h' := HostAt(c, if h.pc == WaitAck then 0 else h.s + 1);
            HostOk(c, h', a) && FlightOk(c, h', a, flight)
  {
    PacketsBound(c, c.Sectors());
    SectorCount(c, 0);
  }

  lemma HostReads(c: Config, st: State)
    requires c.Valid() && c.Accepted() && Running(c, st)
    requires st.host.pc != Send && !st.host.pc.Finished? && st.replies != []
    ensures HostDo(c, st).Some? && Running(c, HostDo(c, st).value)
  {
    hide LogOk, HostOk, AgentOk, FlightOk, BufferOk, CellsOk;
    var h, a := st.host, st.agent;
    NextReply(c, h, a, st.replies, st.sent);
    var enters := h.pc == WaitAck || (h.pc == WaitProgress && h.s < Reported(a));
    if enters {
      HostEnters(c, h, a, Flight(st));
      LogRead(c, h, HostAt(c, if h.pc == WaitAck then 0 else h.s + 1), a, st.replies, st.sent);
    } else {
      FinalReply(c, h, a, st.cells);
      var h' := h.(pc := Finished(a.pc.ok));
      HostPcOnly(c, h, h', a, Flight(st));
      LogFinished(c, h, h', a, st.replies, st.sent);
    }
  }

  lemma LogRead(c: Config, h: Host, h': Host, a: Agent, replies: seq<Reply>, sent: seq<Reply>)
    requires c.sector > 0 && LogOk(c, h, a, replies, sent)
    requires !h.pc.Finished? && !h'.pc.Finished? && replies != [] && Read(h) < |sent| && Read(h') == Read(h) + 1
    ensures LogOk(c, h', a, replies[1..], sent)
  {
  }

  lemma LogFinished(c: Config, h: Host, h': Host, a: Agent, replies: seq<Reply>, sent: seq<Reply>)
    requires c.sector > 0 && LogOk(c, h, a, replies, sent) && !h.pc.Finished? && h.pc != WaitAck
    requires replies != [] && a.pc.Stopped? && h.s == Reported(a) && h'.pc.Finished?
    ensures LogOk(c, h', a, replies[1..], sent)
  {
  }

  /** An ACK read after the start is the agent's last word; a good one means that
      every sector was reported. */
  lemma FinalReply(c: Config, h: Host, a: Agent, cells: seq<Byte>)
    requires c.Valid() && c.Accepted() && HostOk(c, h, a) && CellsOk(c, a, cells)
    requires h.pc == WaitFinal || h.pc == WaitProgress
    requires h.s >= Reported(a) ==> a.pc.Stopped? && h.s == Reported(a)
    requires h.pc == WaitProgress ==> h.s >= Reported(a)
    ensures h.s >= Reported(a) && (a.pc.ok ==> a.pc == Stopped(true, c.Sectors()))
  {
  }
}
