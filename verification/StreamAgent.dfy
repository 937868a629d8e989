/** The agent's steps keep the invariant. */
module StreamAgent {
  import opened Bits
  import opened Framing
  import opened Options
  import opened Nor
  import opened StreamModel
  import opened StreamInvariant
  import opened StreamSteps
  import Cobs

  // ---- Bytes in flight -----------------------------------------------------------

  /** At most one sector of packets is in flight while the agent is at work. */
  lemma InFlightBound(c: Config, h: Host, a: Agent, flight: seq<Byte>)
    requires c.Valid() && HostOk(c, h, a) && FlightOk(c, h, a, flight) && !a.pc.Stopped?
    ensures |flight| <= 523 * (c.sector / CHUNK)
  {
    hide Config.Frames;
    PacketsBound(c, h.s);
    var i := if a.pc == Recv && a.s == h.s then PacketsIn(a.got) else 0;
    if i <= h.k { WireSize(c, h.s, i, h.k); }
  }

  /** A byte that finds room in the ring, or an agent that has stopped. */
  lemma Arrives(c: Config, st: State)
    requires c.Valid() && c.Accepted() && Running(c, st) && st.wire != []
    requires |st.ring| + 1 < c.ring || st.agent.pc.Stopped?
    ensures Running(c, Do(c, st, Arrive).value)
    ensures !st.agent.pc.Stopped? ==> Flight(Do(c, st, Arrive).value) == Flight(st)
  {
    hide LogOk, HostOk, AgentOk, BufferOk, CellsOk, FlightOk;
    var st' := Do(c, st, Arrive).value;
    if !st.agent.pc.Stopped? {
      assert st.wire == [st.wire[0]] + st.wire[1..];
      assert Flight(st') == Flight(st);
    } else {
      FlightDone(c, st.host, st.agent, Flight(st'));
    }
  }

  lemma FlightDone(c: Config, h: Host, a: Agent, flight: seq<Byte>)
    requires c.sector > 0 && a.pc.Stopped?
    ensures FlightOk(c, h, a, flight)
  {
  }

  // ---- The log -----------------------------------------------------------------

  lemma LogProgress(c: Config, h: Host, a: Agent, a': Agent, replies: seq<Reply>, sent: seq<Reply>)
    requires c.sector > 0 && LogOk(c, h, a, replies, sent) && HostOk(c, h, a)
    requires !a.pc.Stopped? && !a'.pc.Stopped? && Reported(a') == Reported(a) + 1
    ensures var r := ProgressOf(c, Reported(a)); LogOk(c, h, a', replies + [r], sent + [r])
  {
    assert Reports(c, Reported(a')) == Reports(c, Reported(a)) + [ProgressOf(c, Reported(a))];
  }

  lemma LogStop(c: Config, h: Host, a: Agent, a': Agent, replies: seq<Reply>, sent: seq<Reply>, ok: bool)
    requires c.sector > 0 && LogOk(c, h, a, replies, sent) && HostOk(c, h, a)
    requires !a.pc.Stopped? && a'.pc == Stopped(ok, Reported(a))
    ensures var r := Ack(if ok then ACK_OK else ACK_FLASH_ERROR); LogOk(c, h, a', replies + [r], sent + [r])
  {
  }

  lemma LogQuiet(c: Config, h: Host, a: Agent, a': Agent, replies: seq<Reply>, sent: seq<Reply>)
    requires c.sector > 0 && LogOk(c, h, a, replies, sent)
    requires !a.pc.Stopped? && !a'.pc.Stopped? && Reported(a') == Reported(a)
    ensures LogOk(c, h, a', replies, sent)
  {
  }

  // ---- Stopping with an error ----------------------------------------------------

  lemma FinalOutside(c: Config, m: nat)
    requires c.Valid() && c.Accepted() && m <= c.Sectors()
    requires c.addr + m * c.sector <= |c.cells| && c.addr + c.Sectors() * c.sector <= |c.cells|
    ensures OutsideKept(c, Final(c, m))
  {
    MulLe(m, c.Sectors(), c.sector);
  }

  /** Any way of giving up leaves the flash outside the covered sectors alone. */
  lemma GivesUp(c: Config, st: State, cells: seq<Byte>)
    requires c.Valid() && c.Accepted() && Running(c, st) && !st.agent.pc.Stopped?
    requires OutsideKept(c, cells)
    ensures Running(c, Stop(st.(cells := cells), false, Reported(st.agent)))
  {
    hide LogOk, FlightOk;
    var a' := Stop(st, false, Reported(st.agent)).agent;
    LogStop(c, st.host, st.agent, a', st.replies, st.sent, false);
    FlightDone(c, st.host, a', Flight(Stop(st.(cells := cells), false, Reported(st.agent))));
  }

  lemma SettledOutside(c: Config, a: Agent, cells: seq<Byte>)
    requires c.Valid() && c.Accepted() && CellsOk(c, a, cells) && !a.pc.Stopped?
    ensures OutsideKept(c, cells)
  {
    CoverFits(c);
    FinalOutside(c, Settled(a));
  }

  lemma TimesOut(c: Config, st: State)
    requires c.Valid() && c.Accepted() && Running(c, st) && st.agent.pc == Recv
    ensures Running(c, Stop(st, false, st.agent.s))
  {
    hide LogOk, HostOk, AgentOk, BufferOk, FlightOk, OutsideKept;
    SettledOutside(c, st.agent, st.cells);
    GivesUp(c, st, st.cells);
  }

  /** The agent only ever erases one of the covered sectors. */
  lemma TargetCovered(c: Config, a: Agent)
    requires c.Valid() && AgentOk(c, a) && PendingHolds(c, a) && EraseTarget(c, a).Some?
    ensures c.addr <= EraseTarget(c, a).value
    ensures EraseTarget(c, a).value + c.sector <= c.addr + c.Sectors() * c.sector
  {
    hide AgentOk, PendingHolds, Config.Flagged, Config.Sectors, Config.Bitmap;
    PendingPlace(c, a);
    var t := if a.pc == SkipErase then a.s else a.s - 1;
    MulLe(t + 1, c.Sectors(), c.sector);
    assert (t + 1) * c.sector == t * c.sector + c.sector;
  }

  lemma PendingPlace(c: Config, a: Agent)
    requires c.sector > 0 && AgentOk(c, a) && PendingHolds(c, a) && !a.pc.Stopped?
    ensures a.s <= c.Sectors() && (a.pc == SkipErase ==> a.s < c.Sectors())
    ensures a.pending >= 0 ==> a.s > 0 && a.pendingAddr == c.addr + (a.s - 1) * c.sector
  {
    hide Config.Data, Config.Flagged, Config.Sectors;
  }

  lemma SpliceInside(c: Config, cells: seq<Byte>, at: nat, junk: seq<Byte>)
    requires c.sector > 0 && OutsideKept(c, cells) && |junk| == c.sector
    requires c.addr <= at && at + c.sector <= c.addr + c.Sectors() * c.sector && at + c.sector <= |cells|
    ensures OutsideKept(c, Splice(cells, at, junk))
  {
  }

  lemma TargetNotStopped(c: Config, a: Agent)
    requires c.sector > 0 && EraseTarget(c, a).Some?
    ensures !a.pc.Stopped?
  {
  }

  lemma EraseFailing(c: Config, st: State, junk: seq<Byte>)
    requires c.Valid() && c.Accepted() && Running(c, st)
    requires Do(c, st, EraseFails(junk)).Some?
    ensures Running(c, Do(c, st, EraseFails(junk)).value)
  {
    hide LogOk, HostOk, AgentOk, PendingHolds, FlightOk, CellsOk, OutsideKept, EraseTarget, Config.Sectors,
      Config.Data, Config.Bitmap;
    var a := st.agent;
    TargetNotStopped(c, a);
    TargetCovered(c, a);
    SettledOutside(c, a, st.cells);
    SpliceInside(c, st.cells, EraseTarget(c, a).value, junk);
    GivesUp(c, st, Splice(st.cells, EraseTarget(c, a).value, junk));
  }

  // ---- Settling a pending sector ----------------------------------------------

  lemma SectorSettles(c: Config, m: nat, cells: seq<Byte>)
    requires c.Valid() && c.Accepted() && m < c.Sectors() && SettledAt(c, m, cells)
    ensures var at := c.addr + m * c.sector;
            && at + c.sector <= |cells|
            && SettledAt(c, m + 1, Splice(cells, at, SectorAfter(c.Data(m), c.sector, c.page)))
  {
    assert c.sector > 0;
    hide Config.Valid, Config.Accepted, Config.Sectors, Config.Data, Final, Splice, SectorAfter;
    CoverFits(c);
    RoomForOne(c.addr, m, c.Sectors(), c.sector, |c.cells|);
    FinalNext(c, m);
  }

  lemma RoomForOne(addr: nat, m: nat, n: nat, q: nat, len: nat)
    requires m < n && addr + n * q <= len
    ensures (m + 1) * q == m * q + q && addr + (m + 1) * q <= len
  {
    MulLe(m + 1, n, q);
  }

  /** Writing the pending buffer out makes every sector before s final. */
  lemma FlushSettles(c: Config, st: State)
    requires c.Valid() && c.Accepted() && AgentOk(c, st.agent) && PendingHolds(c, st.agent)
    requires CellsOk(c, st.agent, st.cells)
    requires !st.agent.pc.Stopped? && st.agent.pc != SkipReport
    ensures Flush(c, st).Some? && SettledAt(c, st.agent.s, Flush(c, st).value)
  {
    hide *;
    ValidSizes(c);
    SettledBehind(c, st.agent, st.cells);
    if st.agent.pending >= 0 {
      SectorSettles(c, st.agent.s - 1, st.cells);
      FlushIs(c, st, st.agent.s - 1);
    } else {
      FlushNone(c, st);
    }
  }

  lemma ValidSizes(c: Config)
    requires c.Valid()
    ensures c.page > 0 && c.sector > 0
  {
  }

  lemma FlushNone(c: Config, st: State)
    requires c.page > 0 && st.agent.pending < 0
    ensures Flush(c, st) == Some(st.cells)
  {
  }

  lemma FlushIs(c: Config, st: State, m: nat)
    requires c.page > 0 && c.sector > 0 && !st.agent.pc.Stopped? && PendingHolds(c, st.agent)
    requires st.agent.pending >= 0 && st.agent.s == m + 1 && |c.Data(m)| <= c.sector
    requires st.agent.pendingAddr + c.sector <= |st.cells|
    ensures Flush(c, st) == Some(Splice(st.cells, st.agent.pendingAddr, SectorAfter(c.Data(m), c.sector, c.page)))
  {
    hide Config.Data, Splice, SectorAfter;
  }

  lemma SettledBehind(c: Config, a: Agent, cells: seq<Byte>)
    requires c.Valid() && c.Accepted() && CellsOk(c, a, cells) && AgentOk(c, a) && PendingHolds(c, a)
    requires !a.pc.Stopped? && a.pc != SkipReport
    ensures a.pending >= 0 ==>
              && a.s > 0 && a.s - 1 < c.Sectors() && SettledAt(c, a.s - 1, cells)
              && a.pendingAddr == c.addr + (a.s - 1) * c.sector && |c.Data(a.s - 1)| <= c.sector
    ensures a.pending < 0 ==> SettledAt(c, a.s, cells)
  {
    hide SettledAt, Config.Sectors, Config.Data, Config.Flagged;
  }

  // ---- Control steps ------------------------------------------------------------

  /** Steps between two control points that report nothing. */
  lemma QuietStep(c: Config, h: Host, a: Agent, a': Agent, flight: seq<Byte>)
    requires c.Valid() && HostOk(c, h, a) && FlightOk(c, h, a, flight) && AgentOk(c, a)
    requires a'.frame == a.frame && a'.s == Reported(a) == Reported(a') && !a.pc.Stopped?
    requires (a.pc == Top && (a'.pc == SkipErase || (a'.pc == Recv && a'.got == 0)))
             || (a.pc == SkipErase && a'.pc == SkipReport) || (a.pc == Program && a'.pc == Top)
    ensures HostOk(c, h, a') && FlightOk(c, h, a', flight)
  {
  }

  lemma AgentFinishes(c: Config, st: State)
    requires c.Valid() && c.Accepted() && Running(c, st) && st.agent.pc == Top && st.agent.s >= c.Sectors()
    ensures AgentDo(c, st).Some? && Running(c, AgentDo(c, st).value)
  {
    hide LogOk, FlightOk, Flush;
    FlushSettles(c, st);
    var st' := AgentDo(c, st).value;
    LogStop(c, st.host, st.agent, st'.agent, st.replies, st.sent, true);
    FlightDone(c, st.host, st'.agent, Flight(st'));
  }

  lemma AgentOpens(c: Config, st: State)
    requires c.Valid() && c.Accepted() && Running(c, st) && st.agent.pc == Top && c.Flagged(st.agent.s)
    ensures AgentDo(c, st).Some? && Running(c, AgentDo(c, st).value)
  {
    hide LogOk, HostOk, FlightOk, BufferOk, SettledAt, Config.Sectors, Config.Flagged, Config.Data;
    OpenBuffer(c, st.agent);
    FlaggedInside(c, st.agent.s);
    var st' := AgentDo(c, st).value;
    QuietStep(c, st.host, st.agent, st'.agent, Flight(st));
    LogQuiet(c, st.host, st.agent, st'.agent, st.replies, st.sent);
  }

  lemma OpenBuffer(c: Config, a: Agent)
    requires c.Valid() && AgentOk(c, a) && BufferOk(c, a) && a.pc == Top
    ensures BufferOk(c, a.(pc := Recv, got := 0))
  {
    hide Config.Data, Config.Sectors, Config.Flagged;
    assert a.ram[a.rx * SPACING..a.rx * SPACING] == c.Data(a.s)[..0];
  }

  lemma FlaggedInside(c: Config, s: nat)
    requires c.sector > 0 && c.Flagged(s)
    ensures s < c.Sectors()
  {
  }

  lemma AgentClears(c: Config, st: State)
    requires c.Valid() && c.Accepted() && Running(c, st)
    requires st.agent.pc == Top && st.agent.s < c.Sectors() && !c.Flagged(st.agent.s)
    ensures AgentDo(c, st).Some? && Running(c, AgentDo(c, st).value)
  {
    hide LogOk, HostOk, FlightOk, Final, Config.Sectors, Config.Flagged, Config.Data, Flush;
    FlushSettles(c, st);
    var st' := AgentDo(c, st).value;
    QuietStep(c, st.host, st.agent, st'.agent, Flight(st));
    LogQuiet(c, st.host, st.agent, st'.agent, st.replies, st.sent);
  }

  lemma AgentErases(c: Config, st: State)
    requires c.Valid() && c.Accepted() && Running(c, st) && st.agent.pc == SkipErase
    ensures AgentDo(c, st).Some? && Running(c, AgentDo(c, st).value)
  {
    hide LogOk, HostOk, FlightOk, Final, Config.Sectors, Config.Flagged, Config.Data, Config.Bitmap, PendingHolds;
    assert PendingHolds(c, st.agent.(pc := SkipReport)) by { NothingPending(c, st.agent); }
    var m := st.agent.s;
    CoverFits(c);
    MulLe(m + 1, c.Sectors(), c.sector);
    assert (m + 1) * c.sector == m * c.sector + c.sector;
    BitmapExact(c, m);
    FinalNext(c, m);
    var st' := AgentDo(c, st).value;
    QuietStep(c, st.host, st.agent, st'.agent, Flight(st));
    LogQuiet(c, st.host, st.agent, st'.agent, st.replies, st.sent);
  }

  lemma NothingPending(c: Config, a: Agent)
    requires c.sector > 0 && AgentOk(c, a) && a.pc == SkipErase
    ensures PendingHolds(c, a.(pc := SkipReport))
  {
  }

  lemma SkipReported(c: Config, h: Host, a: Agent, a': Agent, flight: seq<Byte>)
    requires c.Valid() && HostOk(c, h, a) && FlightOk(c, h, a, flight) && AgentOk(c, a)
    requires a.pc == SkipReport && a' == a.(pc := Top, s := a.s + 1)
    ensures HostOk(c, h, a') && FlightOk(c, h, a', flight)
  {
    assert c.Packets(a.s) == 0;
  }

  lemma AgentReportsSkip(c: Config, st: State)
    requires c.Valid() && c.Accepted() && Running(c, st) && st.agent.pc == SkipReport
    ensures AgentDo(c, st).Some? && Running(c, AgentDo(c, st).value)
  {
    hide LogOk, HostOk, FlightOk, Final, Config.Sectors, Config.Flagged, Config.Data, ProgressOf;
    var st' := AgentDo(c, st).value;
    SkipReported(c, st.host, st.agent, st'.agent, Flight(st));
    LogProgress(c, st.host, st.agent, st'.agent, st.replies, st.sent);
  }

  lemma DataReported(c: Config, h: Host, a: Agent, flight: seq<Byte>)
    requires c.Valid() && HostOk(c, h, a) && FlightOk(c, h, a, flight) && AgentOk(c, a) && a.pc == Report
    ensures HostOk(c, h, a.(pc := Program)) && FlightOk(c, h, a.(pc := Program), flight)
  {
  }

  lemma AgentReports(c: Config, st: State)
    requires c.Valid() && c.Accepted() && Running(c, st) && st.agent.pc == Report
    ensures AgentDo(c, st).Some? && Running(c, AgentDo(c, st).value)
  {
    hide LogOk, HostOk, FlightOk, Final, Config.Sectors, Config.Flagged, Config.Data, ProgressOf;
    var st' := AgentDo(c, st).value;
    DataReported(c, st.host, st.agent, Flight(st));
    LogProgress(c, st.host, st.agent, st'.agent, st.replies, st.sent);
  }

  /** The freshly filled buffer becomes the pending one; the other is free. */
  lemma AgentPrograms(c: Config, st: State)
    requires c.Valid() && c.Accepted() && Running(c, st) && st.agent.pc == Program
    ensures AgentDo(c, st).Some? && Running(c, AgentDo(c, st).value)
  {
    hide LogOk, HostOk, FlightOk, Final, Config.Sectors, Config.Flagged, Config.Data, Flush;
    FlushSettles(c, st);
    var st' := AgentDo(c, st).value;
    QuietStep(c, st.host, st.agent, st'.agent, Flight(st));
    LogQuiet(c, st.host, st.agent, st'.agent, st.replies, st.sent);
    var d := c.Data(st.agent.s);
    assert d[..|d|] == d;
  }

  // ---- Receiving -----------------------------------------------------------------

  lemma FullSector(c: Config, a: Agent)
    requires c.Valid() && AgentOk(c, a) && BufferOk(c, a) && a.pc == Recv
    ensures a.got >= |c.Data(a.s)| ==> a.got == |c.Data(a.s)| > 0 && PacketsIn(a.got) == c.Packets(a.s)
    ensures a.got < |c.Data(a.s)| ==> a.got == PacketsIn(a.got) * CHUNK && PacketsIn(a.got) < c.Packets(a.s)
  {
    hide Config.Data, Config.Sectors, Config.Flagged, Config.Bitmap, Config.Lo;
    SectorCount(c, a.s);
    WholeChunks(a.got, |c.Data(a.s)|);
  }

  lemma WholeChunks(got: nat, n: nat)
    requires got <= n && (got % CHUNK == 0 || got == n)
    ensures got < n ==> got == PacketsIn(got) * CHUNK && PacketsIn(got) < PacketsIn(n)
  {
  }

  lemma SectorComplete(c: Config, h: Host, a: Agent, flight: seq<Byte>, rest: seq<Byte>)
    requires c.Valid() && HostOk(c, h, a) && FlightOk(c, h, a, flight) && AgentOk(c, a) && BufferOk(c, a)
    requires a.pc == Recv && a.got >= |c.Data(a.s)| && flight == a.frame + rest
    ensures HostOk(c, h, a.(pc := Report)) && FlightOk(c, h, a.(pc := Report), flight)
  {
    hide BufferOk, Config.Frames, Config.Packets, Config.Data;
    FullSector(c, a);
    assert c.WireOf(h.s, h.k, h.k) == [];
  }

  lemma AgentSectorDone(c: Config, st: State)
    requires c.Valid() && c.Accepted() && Running(c, st)
    requires st.agent.pc == Recv && st.agent.got >= |c.Data(st.agent.s)|
    ensures AgentDo(c, st).Some? && Running(c, AgentDo(c, st).value)
  {
    hide LogOk, HostOk, FlightOk, SettledAt, Config.Sectors, Config.Flagged, Config.Data, Config.Packets, Deliver,
         Flush;
    FullSector(c, st.agent);
    var st' := AgentDo(c, st).value;
    assert Flight(st) == st.agent.frame + (st.ring + st.wire);
    SectorComplete(c, st.host, st.agent, Flight(st), st.ring + st.wire);
    LogQuiet(c, st.host, st.agent, st'.agent, st.replies, st.sent);
  }

  /** Where the next wire byte stands in the packet it belongs to. */
  lemma WhereInFrame(x: seq<Byte>, b: Byte, rest: seq<Byte>, y: seq<Byte>, tail: seq<Byte>)
    requires Cobs.NoZero(x) && Cobs.NoZero(y) && x + [b] + rest == y + [0] + tail
    ensures b == 0 ==> x == y && rest == tail
    ensures b != 0 ==> |x| < |y|
  {
    var all := x + [b] + rest;
    assert all[|x|] == b && all[|y|] == 0;
    assert forall i :: 0 <= i < |x| ==> all[i] == x[i];
    assert forall i :: 0 <= i < |y| ==> all[i] == y[i];
    if |x| == |y| {
      assert x == all[..|x|] && y == all[..|x|];
      assert rest == all[|x| + 1..] && tail == all[|x| + 1..];
    }
  }

  /** A byte from the ring continues, or completes, the first packet in flight. */
  lemma NextByte(c: Config, h: Host, a: Agent, ring: seq<Byte>, wire: seq<Byte>)
    requires c.Valid() && HostOk(c, h, a) && FlightOk(c, h, a, a.frame + ring + wire) && AgentOk(c, a)
    requires a.pc == Recv && ring != []
    ensures a.s == h.s && PacketsIn(a.got) < h.k
    ensures var p := c.DataPacket(a.s, PacketsIn(a.got));
            && (ring[0] == 0 ==> a.frame == Frame(p) && ring[1..] + wire == c.WireOf(h.s, PacketsIn(a.got) + 1, h.k))
            && (ring[0] != 0 ==> |a.frame| < |Frame(p)|)
  {
    hide Frame, Config.DataPacket, Config.Packets, Config.Sectors, Config.Flagged;
    var n := PacketsIn(a.got);
    var p := c.DataPacket(a.s, n);
    assert (a.frame + ring + wire)[|a.frame|] == ring[0];
    assert n < h.k;
    FrameShape(p);
    assert a.frame + ring + wire == a.frame + [ring[0]] + (ring[1..] + wire);
    WhereInFrame(a.frame, ring[0], ring[1..] + wire, Frame(p), c.WireOf(h.s, n + 1, h.k));
  }

  lemma FrameFits(c: Config, s: nat, k: nat)
    ensures 0 < |Frame(c.DataPacket(s, k))| <= 522
  {
    FrameShape(c.DataPacket(s, k));
  }

  lemma FrameDecodes(c: Config, s: nat, k: nat)
    ensures Cobs.Reach(Frame(c.DataPacket(s, k))) <= RX_RAW
  {
    hide Frame, Config.DataPacket, Cobs.Reach;
    FrameFits(c, s, k);
    Cobs.ReachBound(Frame(c.DataPacket(s, k)));
  }

  lemma AgentBuffersByte(c: Config, st: State)
    requires c.Valid() && c.Accepted() && Running(c, st)
    requires st.agent.pc == Recv && st.agent.got < |c.Data(st.agent.s)| && st.ring != [] && st.ring[0] != 0
    ensures AgentDo(c, st).Some? && Running(c, AgentDo(c, st).value)
    ensures AgentDo(c, st).value.agent.pc == Recv && AgentDo(c, st).value.replies == st.replies
  {
    hide LogOk, HostOk, FlightOk, SettledAt, BufferOk, Config.DataPacket, Frame, Config.Data, Deliver, Flush,
         Config.Flagged, Config.Sectors;
    var a := st.agent;
    NextByte(c, st.host, a, st.ring, st.wire);
    FrameFits(c, a.s, PacketsIn(a.got));
    var st' := AgentDo(c, st).value;
    assert st.ring == [st.ring[0]] + st.ring[1..];
    assert Flight(st') == Flight(st);
    FrameGrows(c, st.host, a, st.ring[0], Flight(st));
    LogQuiet(c, st.host, a, st'.agent, st.replies, st.sent);
  }

  lemma FrameGrows(c: Config, h: Host, a: Agent, b: Byte, flight: seq<Byte>)
    requires c.Valid() && HostOk(c, h, a) && FlightOk(c, h, a, flight) && BufferOk(c, a)
    requires a.pc == Recv && a.s == h.s && b != 0
    ensures var a' := a.(frame := a.frame + [b]); HostOk(c, h, a') && FlightOk(c, h, a', flight) && BufferOk(c, a')
  {
    hide Config.WireOf, Config.Data, Config.Packets, Config.Sectors, PacketsIn;
  }

  /** The agent after storing the chunk of packet PacketsIn(got). */
  ghost function Stores(c: Config, a: Agent): Agent
    requires a.rx * SPACING + a.got + |c.ChunkAt(a.s, PacketsIn(a.got))| <= |a.ram|
  {
    var chunk := c.ChunkAt(a.s, PacketsIn(a.got));
    a.(got := a.got + |chunk|, ram := Splice(a.ram, a.rx * SPACING + a.got, chunk), frame := [])
  }

  lemma ChunkFits(c: Config, a: Agent)
    requires c.Valid() && AgentOk(c, a) && BufferOk(c, a) && a.pc == Recv && a.got < |c.Data(a.s)|
    ensures var d, chunk := c.Data(a.s), c.ChunkAt(a.s, PacketsIn(a.got));
            && 0 < |chunk| && a.got + |chunk| <= |d| && chunk == d[a.got..a.got + |chunk|]
            && a.rx * SPACING + a.got + |chunk| <= |a.ram|
            && PacketsIn(a.got + |chunk|) == PacketsIn(a.got) + 1
            && ((a.got + |chunk|) % CHUNK == 0 || a.got + |chunk| == |d|)
  {
    hide Config.Data, Config.Packets, Config.Sectors, Config.Flagged, Config.Bitmap;
    FullSector(c, a);
  }

  lemma BufferFills(c: Config, a: Agent)
    requires c.Valid() && AgentOk(c, a) && BufferOk(c, a) && a.pc == Recv && a.got < |c.Data(a.s)|
    requires a.rx * SPACING + a.got + |c.ChunkAt(a.s, PacketsIn(a.got))| <= |a.ram|
    ensures BufferOk(c, Stores(c, a)) && AgentOk(c, Stores(c, a))
  {
    hide Config.Data, Config.Packets, Config.Sectors, Config.Flagged, Config.ChunkAt, PacketsIn, Splice;
    ChunkFits(c, a);
    var chunk, a' := c.ChunkAt(a.s, PacketsIn(a.got)), Stores(c, a);
    BufferGrows(a.ram, a.rx * SPACING, a.got, chunk, c.Data(a.s));
    if a.pending >= 0 {
      OtherBufferKept(a.ram, a.rx, a.got, chunk, a.pending, a.pendingBytes);
    }
  }

  lemma BufferGrows(ram: seq<Byte>, base: nat, got: nat, chunk: seq<Byte>, d: seq<Byte>)
    requires base + got + |chunk| <= |ram| && got + |chunk| <= |d|
    requires ram[base..base + got] == d[..got] && chunk == d[got..got + |chunk|]
    ensures Splice(ram, base + got, chunk)[base..base + got + |chunk|] == d[..got + |chunk|]
  {
    var ram' := Splice(ram, base + got, chunk);
    assert ram'[base..base + got + |chunk|] == ram[base..base + got] + chunk;
  }

  /** The two buffers do not overlap: sectors fit the spacing. */
  lemma OtherBufferKept(ram: seq<Byte>, rx: nat, got: nat, chunk: seq<Byte>, pending: nat, bytes: nat)
    requires |ram| == 2 * SPACING && got + |chunk| <= SPACING && bytes <= SPACING
    requires rx <= 1 && pending <= 1 && rx != pending
    ensures rx * SPACING + got + |chunk| <= |ram|
    ensures Splice(ram, rx * SPACING + got, chunk)[pending * SPACING..pending * SPACING + bytes]
         == ram[pending * SPACING..pending * SPACING + bytes]
  {
  }

  lemma DeliverData(c: Config, st: State)
    requires c.Valid() && AgentOk(c, st.agent) && BufferOk(c, st.agent)
    requires st.agent.pc == Recv && st.agent.got < |c.Data(st.agent.s)|
    requires st.agent.rx * SPACING + st.agent.got + |c.ChunkAt(st.agent.s, PacketsIn(st.agent.got))| <= |st.agent.ram|
    ensures Deliver(c, st, Frame(c.DataPacket(st.agent.s, PacketsIn(st.agent.got))))
         == Some(st.(agent := Stores(c, st.agent)))
  {
    hide BufferOk, AgentOk, Config.Data, Config.Packets, Config.ChunkAt, Config.Flagged, Config.Sectors, PacketsIn,
      Frame, Parse, Splice, Cobs.Reach;
    var a := st.agent;
    ChunkFits(c, a);
    FrameDecodes(c, a.s, PacketsIn(a.got));
    var p := c.DataPacket(a.s, PacketsIn(a.got));
    ParseFrame(p);
    assert p.data[2..] == c.ChunkAt(a.s, PacketsIn(a.got));
  }

  lemma PacketTaken(c: Config, h: Host, a: Agent, flight: seq<Byte>, rest: seq<Byte>)
    requires c.Valid() && HostOk(c, h, a) && FlightOk(c, h, a, flight) && AgentOk(c, a) && BufferOk(c, a)
    requires a.pc == Recv && a.s == h.s && a.got < |c.Data(a.s)| && PacketsIn(a.got) < h.k
    requires a.rx * SPACING + a.got + |c.ChunkAt(a.s, PacketsIn(a.got))| <= |a.ram|
    requires rest == c.WireOf(h.s, PacketsIn(a.got) + 1, h.k)
    ensures HostOk(c, h, Stores(c, a)) && FlightOk(c, h, Stores(c, a), rest)
  {
    hide BufferOk, AgentOk, Config.Data, Config.Packets, Config.ChunkAt, Config.Sectors, Config.Flagged, PacketsIn,
      Config.WireOf, Splice;
    ChunkFits(c, a);
  }

  lemma AgentTakesPacket(c: Config, st: State)
    requires c.Valid() && c.Accepted() && Running(c, st)
    requires st.agent.pc == Recv && st.agent.got < |c.Data(st.agent.s)| && st.ring != [] && st.ring[0] == 0
    ensures AgentDo(c, st).Some? && Running(c, AgentDo(c, st).value)
    ensures AgentDo(c, st).value.agent.pc == Recv && AgentDo(c, st).value.replies == st.replies
  {
    hide LogOk, HostOk, FlightOk, SettledAt, BufferOk, AgentOk, Config.Data, Config.Packets, Config.DataPacket,
      Config.ChunkAt, Config.WireOf, Config.Flagged, Config.Sectors, PacketsIn, Frame, Deliver, Flush, Splice;
    var h, a := st.host, st.agent;
    ChunkFits(c, a);
    NextByte(c, h, a, st.ring, st.wire);
    FrameFits(c, a.s, PacketsIn(a.got));
    DeliverData(c, st.(ring := st.ring[1..]));
    BufferFills(c, a);
    PacketTaken(c, h, a, Flight(st), st.ring[1..] + st.wire);
    var st' := AgentDo(c, st).value;
    assert st'.agent == Stores(c, a);
    assert Flight(st') == st.ring[1..] + st.wire;
    LogQuiet(c, h, a, st'.agent, st.replies, st.sent);
  }
}
