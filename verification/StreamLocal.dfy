/** What every run of the stream keeps, whatever the wire loses, damages or delivers and
    however small the ring: the agent's bookkeeping, its buffers apart, and the flash
    outside the covered sectors. */
module StreamLocal {
  import opened Bits
  import opened Framing
  import opened Options
  import opened Nor
  import opened StreamModel
  import opened StreamInvariant
  import opened StreamSteps
  import opened StreamAgent
  import Cobs

  /** The host's own counters. */
  ghost predicate HostLocal(c: Config, h: Host)
    requires c.sector > 0
  {
    && h.s <= c.Sectors() && h.k <= c.Packets(h.s)
    && (h.pc == Send || h.pc == WaitProgress ==> h.s < c.Sectors())
    && (h.pc == WaitAck ==> h.s == 0 && h.k == 0)
  }

  /** How much is received, and where the pending sector is to go. */
  ghost predicate Placed(c: Config, a: Agent)
    requires c.sector > 0
  {
    && (a.pc == Recv ==> a.got <= |c.Data(a.s)|)
    && (a.pc == Report || a.pc == Program ==> a.got == |c.Data(a.s)|)
    && (a.pending >= 0 ==>
          && a.pending != a.rx && a.s > 0
          && a.pendingAddr == c.addr + (a.s - 1) * c.sector && a.pendingBytes == |c.Data(a.s - 1)|)
  }

  ghost predicate AgentLocal(c: Config, a: Agent)
    requires c.sector > 0
  {
    match a.pc
    case Check => |a.ram| == 2 * SPACING
    case Stopped(_, _) => true
    case _ => c.Accepted() && AgentOk(c, a) && Placed(c, a)
  }

  ghost predicate Local(c: Config, st: State)
    requires c.Valid()
  {
    HostLocal(c, st.host) && AgentLocal(c, st.agent) && OutsideKept(c, st.cells)
  }

  // ---- Host --------------------------------------------------------------------------

  lemma HostStepLocal(c: Config, st: State)
    requires c.Valid() && HostLocal(c, st.host) && HostDo(c, st).Some?
    ensures HostLocal(c, HostDo(c, st).value.host)
    ensures HostDo(c, st).value.agent == st.agent && HostDo(c, st).value.cells == st.cells
  {
    hide Config.Packets, Config.Frames, Config.Bitmap, Config.Sectors;
    PacketsBound(c, st.host.s);
    PacketsBound(c, c.Sectors());
  }

  // ---- Agent -------------------------------------------------------------------------

  /** Whatever frame is delivered: the bytes go to the buffer being filled. */
  lemma DeliverLocal(c: Config, st: State, frame: seq<Byte>)
    requires c.Valid() && st.agent.pc == Recv && AgentLocal(c, st.agent) && st.agent.got < |c.Data(st.agent.s)|
    ensures Deliver(c, st, frame).Some? <==> Cobs.Reach(frame) <= RX_RAW
    ensures Deliver(c, st, frame).Some? ==>
              var st' := Deliver(c, st, frame).value;
              && AgentLocal(c, st'.agent) && st'.cells == st.cells && st'.host == st.host && st'.wire == st.wire
              && PendingSame(st.agent, st'.agent) && st'.ring == st.ring
              && (st'.agent.pc.Stopped? || (st'.agent.pc == Recv && st'.replies == st.replies))
  {
    hide Cobs.Reach, Parse, Config.Flagged, Config.Sectors, Config.Bitmap, Config.Data, Splice, PendingSame;
    var a := st.agent;
    BytesLocal(c, a, []);
    match Parse(frame)
    case None =>
    case Some(p) =>
      if p.cmd == RSP_DATA && |p.data| > 2 {
        var room := |c.Data(a.s)| - a.got;
        BytesLocal(c, a, if |p.data| - 2 <= room then p.data[2..] else p.data[2..2 + room]);
      }
  }

  lemma BytesLocal(c: Config, a: Agent, bytes: seq<Byte>)
    requires c.Valid() && a.pc == Recv && AgentLocal(c, a) && a.got + |bytes| <= |c.Data(a.s)|
    ensures a.rx * SPACING + a.got + |bytes| <= |a.ram|
    ensures var a' := a.(got := a.got + |bytes|, ram := Splice(a.ram, a.rx * SPACING + a.got, bytes), frame := []);
            AgentLocal(c, a') && PendingSame(a, a')
    ensures forall pc: AgentPc, frame: seq<Byte> :: PendingSame(a, a.(pc := pc, frame := frame))
  {
    hide Config.Flagged, Config.Sectors, Config.Bitmap, Config.Data;
    DataFits(c, a.s);
    if a.pending >= 0 {
      DataFits(c, a.s - 1);
      OtherBufferKept(a.ram, a.rx, a.got, bytes, a.pending, a.pendingBytes);
    }
  }

  /** The pending sector's buffer and its place are as they were. */
  ghost predicate PendingSame(a: Agent, a': Agent)
  {
    a.pending >= 0 ==>
      && a'.pending == a.pending && a'.pendingAddr == a.pendingAddr && a'.pendingBytes == a.pendingBytes
      && a.pending * SPACING + a.pendingBytes <= |a.ram| == |a'.ram|
      && a'.ram[a.pending * SPACING..a.pending * SPACING + a.pendingBytes]
         == a.ram[a.pending * SPACING..a.pending * SPACING + a.pendingBytes]
  }

  lemma DataFits(c: Config, s: nat)
    requires c.Valid()
    ensures |c.Data(s)| <= c.sector <= SPACING
  {
    hide Config.Bitmap;
  }

  lemma ReceiveLocal(c: Config, st: State)
    requires c.Valid() && st.agent.pc == Recv && AgentLocal(c, st.agent) && Receive(c, st).Some?
    ensures var st' := Receive(c, st).value;
            AgentLocal(c, st'.agent) && st'.cells == st.cells && PendingSame(st.agent, st'.agent)
  {
    hide Deliver, Config.Flagged, Config.Sectors, Config.Bitmap;
    var a := st.agent;
    DataFits(c, a.s - (if a.pending >= 0 then 1 else 0));
    if a.got < |c.Data(a.s)| {
      var st1 := st.(ring := st.ring[1..]);
      DeliverLocal(c, st1, a.frame);
      DeliverLocal(c, st1, a.frame + [st.ring[0]]);
    }
  }

  /** The pending sector is inside the covered sectors and inside its buffer. */
  lemma FlushLocal(c: Config, st: State)
    requires c.Valid() && AgentLocal(c, st.agent) && OutsideKept(c, st.cells)
    requires !st.agent.pc.Stopped? && st.agent.pc != Check
    ensures Flush(c, st).Some? && OutsideKept(c, Flush(c, st).value)
  {
    hide Config.Flagged, Config.Sectors, Config.Bitmap, Config.Data, Splice, SectorAfter, OutsideKept;
    var a := st.agent;
    if a.pending >= 0 {
      DataFits(c, a.s - 1);
      SectorInside(c, a.s - 1);
      SizeKept(c, st.cells);
      var data := a.ram[a.pending * SPACING..a.pending * SPACING + a.pendingBytes];
      SpliceInside(c, st.cells, a.pendingAddr, SectorAfter(data, c.sector, c.page));
    }
  }

  lemma SizeKept(c: Config, cells: seq<Byte>)
    requires c.sector > 0 && OutsideKept(c, cells)
    ensures |cells| == |c.cells|
  {
  }

  lemma SectorInside(c: Config, s: nat)
    requires c.Valid() && c.Accepted() && s < c.Sectors()
    ensures c.addr <= c.addr + s * c.sector
    ensures c.addr + s * c.sector + c.sector <= c.addr + c.Sectors() * c.sector <= |c.cells|
  {
    hide Config.Sectors, Config.Bitmap;
    CoverFits(c);
    MulLe(s + 1, c.Sectors(), c.sector);
    assert (s + 1) * c.sector == s * c.sector + c.sector;
  }

  lemma AgentStepLocal(c: Config, st: State)
    requires c.Valid() && AgentLocal(c, st.agent) && OutsideKept(c, st.cells) && AgentDo(c, st).Some?
    ensures var st' := AgentDo(c, st).value;
            AgentLocal(c, st'.agent) && OutsideKept(c, st'.cells) && st'.host == st.host
  {
    hide Config.Flagged, Config.Sectors, Config.Bitmap, Config.Data, OutsideKept, Flush, Splice, Receive;
    var a := st.agent;
    match a.pc
    case Check =>
    case Top => FlushLocal(c, st);
    case SkipErase => EraseLocal(c, st);
    case SkipReport =>
    case Recv => ReceiveLocal(c, st); ReceiveHost(c, st);
    case Report =>
    case Program => FlushLocal(c, st);
  }

  lemma ReceiveHost(c: Config, st: State)
    requires Receive(c, st).Some?
    ensures Receive(c, st).value.host == st.host && Receive(c, st).value.wire == st.wire
  {
    hide Parse, Splice, Config.Data;
  }

  lemma EraseLocal(c: Config, st: State)
    requires c.Valid() && AgentLocal(c, st.agent) && OutsideKept(c, st.cells) && st.agent.pc == SkipErase
    ensures var at := c.addr + st.agent.s * c.sector;
            at + c.sector <= |st.cells| && OutsideKept(c, Splice(st.cells, at, Fill(c.sector, 255)))
  {
    hide Config.Flagged, Config.Sectors, Config.Bitmap, Config.Data, OutsideKept, Splice;
    SectorInside(c, st.agent.s);
    SizeKept(c, st.cells);
    SpliceInside(c, st.cells, c.addr + st.agent.s * c.sector, Fill(c.sector, 255));
  }

  lemma EraseFailsLocal(c: Config, st: State, junk: seq<Byte>)
    requires c.Valid() && AgentLocal(c, st.agent) && OutsideKept(c, st.cells) && Do(c, st, EraseFails(junk)).Some?
    ensures var st' := Do(c, st, EraseFails(junk)).value;
            st'.agent.pc.Stopped? && OutsideKept(c, st'.cells) && st'.host == st.host
  {
    hide Config.Flagged, Config.Sectors, Config.Bitmap, Config.Data, OutsideKept, Splice;
    var a := st.agent;
    TargetNotStopped(c, a);
    SectorInside(c, if a.pc == SkipErase then a.s else a.s - 1);
    SpliceInside(c, st.cells, EraseTarget(c, a).value, junk);
  }

  // ---- Every step and every run ----------------------------------------------------------

  lemma StepLocal(c: Config, st: State, act: Action)
    requires c.Valid() && Local(c, st) && Do(c, st, act).Some?
    ensures Local(c, Do(c, st, act).value)
  {
    hide HostDo, AgentDo, HostLocal, OutsideKept, AgentOk, Placed, EraseTarget, Config.Bitmap;
    match act
    case HostStep => HostStepLocal(c, st);
    case AgentStep => AgentStepLocal(c, st);
    case Arrive =>
    case Lose =>
    case Garble(_) =>
    case Break => BreakLocal(c, st.agent);
    case LoseReply(_) =>
    case AgentTimeout =>
    case HostTimeout => HostDone(c, st.host);
    case EraseFails(junk) => EraseFailsLocal(c, st, junk);
  }

  lemma BreakLocal(c: Config, a: Agent)
    requires c.Valid() && AgentLocal(c, a)
    ensures AgentLocal(c, a.(frame := []))
  {
    hide Config.Sectors, Config.Flagged, Config.Data, Config.Bitmap;
  }

  lemma HostDone(c: Config, h: Host)
    requires c.sector > 0 && HostLocal(c, h)
    ensures HostLocal(c, h.(pc := Finished(false)))
  {
  }

  lemma {:induction false} RunLocal(c: Config, st: State, acts: seq<Action>)
    requires c.Valid() && Local(c, st) && Run(c, st, acts).Some?
    ensures Local(c, Run(c, st, acts).value)
    decreases |acts|
  {
    hide Local, Do;
    if acts != [] {
      StepLocal(c, st, acts[0]);
      RunLocal(c, Do(c, st, acts[0]).value, acts[1..]);
    }
  }

  ghost predicate Reachable(c: Config, st: State)
    requires c.Valid()
  {
    exists st0: State, acts: seq<Action> :: Init(c, st0) && Run(c, st0, acts) == Some(st)
  }

  lemma StartLocal(c: Config, st: State)
    requires c.Valid() && Init(c, st)
    ensures Local(c, st)
  {
    hide Config.Bitmap;
  }

  lemma ReachableLocal(c: Config, st: State)
    requires c.Valid() && Reachable(c, st)
    ensures Local(c, st)
  {
    hide Run, Config.Bitmap;
    var st0: State, acts: seq<Action> :| Init(c, st0) && Run(c, st0, acts) == Some(st);
    StartLocal(c, st0);
    RunLocal(c, st0, acts);
  }

  /** Whatever happens, no byte outside the covered sectors changes. */
  lemma OutsideNeverTouched(c: Config, st: State)
    requires c.Valid() && Reachable(c, st)
    ensures OutsideKept(c, st.cells)
  {
    hide Reachable;
    ReachableLocal(c, st);
  }

  /** Whatever arrives, the pending sector is in the buffer that is not being filled, with
      the length and the place of the sector before, and no step of receiving changes it.
      The agent can go on, without a write outside its buffers or the flash, unless it waits
      for bytes or is about to decode a frame that its decode buffer does not hold. */
  lemma BuffersApart(c: Config, st: State)
    requires c.Valid() && Reachable(c, st) && st.agent.pc != Check && !st.agent.pc.Stopped?
    ensures var a := st.agent;
            a.pending >= 0 ==>
              && a.pending != a.rx && 0 < a.s <= c.Sectors()
              && a.pendingAddr == c.addr + (a.s - 1) * c.sector && a.pendingBytes == |c.Data(a.s - 1)|
    ensures st.agent.pc == Recv && AgentDo(c, st).Some? ==> PendingSame(st.agent, AgentDo(c, st).value.agent)
    ensures AgentDo(c, st) == None <==> Waits(c, st) || Overruns(c, st)
  {
    hide Reachable, Config.Data, Config.Sectors, Config.Flagged, Config.Bitmap, Receive, OutsideKept, HostLocal,
         Waits, Overruns;
    ReachableLocal(c, st);
    AgentWaits(c, st);
    if st.agent.pc == Recv && Receive(c, st).Some? { ReceiveLocal(c, st); }
  }

  /** The agent has a next step unless it has stopped, waits for bytes or overruns. */
  lemma AgentWaits(c: Config, st: State)
    requires c.Valid() && AgentLocal(c, st.agent) && OutsideKept(c, st.cells)
    ensures AgentDo(c, st) == None <==> st.agent.pc.Stopped? || Waits(c, st) || Overruns(c, st)
  {
    hide Config.Data, Config.Sectors, Config.Flagged, Config.Bitmap, Flush, Receive, OutsideKept, Cobs.Reach;
    var a := st.agent;
    if a.pc != Check && !a.pc.Stopped? {
      FlushLocal(c, st);
      if a.pc == SkipErase { EraseLocal(c, st); }
      if a.pc == Recv { ReceiveDefined(c, st); }
    }
  }

  lemma ReceiveDefined(c: Config, st: State)
    requires c.Valid() && st.agent.pc == Recv && AgentLocal(c, st.agent)
    ensures Receive(c, st) == None <==> Waits(c, st) || Overruns(c, st)
  {
    hide Deliver, Config.Flagged, Config.Sectors, Config.Bitmap, Cobs.Reach;
    var a := st.agent;
    if a.got < |c.Data(a.s)| && st.ring != [] {
      var st1 := st.(ring := st.ring[1..]);
      DeliverLocal(c, st1, a.frame);
      DeliverLocal(c, st1, a.frame + [st.ring[0]]);
      NothingReached();
    }
  }

  lemma NothingReached()
    ensures Cobs.Reach([]) == 0
  {
  }
}
