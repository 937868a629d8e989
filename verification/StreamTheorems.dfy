/** Flash streaming over a wire that keeps every byte: what every step and every run
    keeps, and that the agent's ring keeps up. */
module StreamTheorems {
  import opened Bits
  import opened Framing
  import opened Options
  import opened Nor
  import opened StreamModel
  import opened StreamInvariant
  import opened StreamSteps
  import opened StreamAgent
  import Cobs
  import SoftRing

  // ---- Every step and every run ------------------------------------------------

  lemma AgentChecks(c: Config, st: State)
    requires c.Valid() && Quiet(c, st) && st.agent.pc == Check
    ensures AgentDo(c, st).Some? && Inv(c, AgentDo(c, st).value)
  {
    if c.Accepted() { StartsRunning(c, st); }
  }

  lemma StartsRunning(c: Config, st: State)
    requires c.Valid() && c.Accepted() && Quiet(c, st) && st.agent.pc == Check
    ensures Running(c, AgentDo(c, st).value)
  {
    hide Final, StoredPages, Config.Sectors;
    assert c.WireOf(0, 0, 0) == [];
    NothingSettled(c);
  }

  lemma NothingSettled(c: Config)
    requires c.Valid() && c.Accepted()
    ensures SettledAt(c, 0, c.cells)
  {
    assert StoredPages(c.image[..0], c.page) + Fill(0, 255) == [];
  }

  lemma QuietStep(c: Config, st: State, act: Action)
    requires c.Valid() && Quiet(c, st) && Do(c, st, act).Some? && Intact(c, st, act)
    ensures Inv(c, Do(c, st, act).value)
  {
    hide Running, Config.Bitmap, Config.Data, Config.Flagged, Config.Sectors, Config.Packets, Config.Frames;
    if act == AgentStep { AgentChecks(c, st); }
  }

  lemma AgentStepKeeps(c: Config, st: State)
    requires c.Valid() && c.Accepted() && Running(c, st) && AgentDo(c, st).Some?
    ensures Running(c, AgentDo(c, st).value)
  {
    var a := st.agent;
    match a.pc
    case Top =>
      if a.s >= c.Sectors() { AgentFinishes(c, st); }
      else if c.Flagged(a.s) { AgentOpens(c, st); }
      else { AgentClears(c, st); }
    case SkipErase => AgentErases(c, st);
    case SkipReport => AgentReportsSkip(c, st);
    case Recv =>
      if a.got >= |c.Data(a.s)| { AgentSectorDone(c, st); }
      else if st.ring[0] == 0 { AgentTakesPacket(c, st); }
      else { AgentBuffersByte(c, st); }
    case Report => AgentReports(c, st);
    case Program => AgentPrograms(c, st);
  }

  lemma HostStepKeeps(c: Config, st: State)
    requires c.Valid() && c.Accepted() && Running(c, st) && HostDo(c, st).Some?
    ensures Running(c, HostDo(c, st).value)
  {
    if st.host.pc != Send { HostReads(c, st); }
    else if st.host.k < c.Packets(st.host.s) { HostSends(c, st); }
    else { HostWaits(c, st); }
  }

  lemma HostTimesOut(c: Config, st: State)
    requires c.Valid() && c.Accepted() && Running(c, st)
    ensures Running(c, st.(host := st.host.(pc := Finished(false))))
  {
    hide LogOk, HostOk, AgentOk, FlightOk, BufferOk, CellsOk;
    var h' := st.host.(pc := Finished(false));
    HostPcOnly(c, st.host, h', st.agent, Flight(st));
    LogSame(c, st.host, h', st.agent, st.replies, st.sent);
  }

  /** The step loses and damages nothing: a byte that arrives finds room in the ring,
      or an agent that has stopped and no longer looks. */
  predicate Intact(c: Config, st: State, act: Action)
  {
    match act
    case Lose => false
    case Garble(_) => false
    case Break => false
    case LoseReply(_) => false
    case Arrive => |st.ring| + 1 < c.ring || st.agent.pc.Stopped?
    case _ => true
  }

  /** Every step of host, agent and wire that damages nothing keeps the invariant,
      timeouts and failed erases included. */
  lemma StepKeeps(c: Config, st: State, act: Action)
    requires c.Valid() && Inv(c, st) && Do(c, st, act).Some? && Intact(c, st, act)
    ensures Inv(c, Do(c, st, act).value)
  {
    hide Running, Quiet, HostDo, AgentDo;
    if Quiet(c, st) {
      QuietStep(c, st, act);
    } else {
      match act
      case HostStep => HostStepKeeps(c, st);
      case AgentStep => AgentStepKeeps(c, st);
      case Arrive => Arrives(c, st);
      case AgentTimeout => TimesOut(c, st);
      case HostTimeout => HostTimesOut(c, st);
      case EraseFails(junk) => EraseFailing(c, st, junk);
    }
  }

  /** No step of the run loses or damages a byte or loses a reply. */
  ghost predicate Undamaged(c: Config, st: State, acts: seq<Action>)
    requires c.page > 0 && c.sector > 0
    decreases |acts|
  {
    acts == [] ||
    (Do(c, st, acts[0]).Some? && Intact(c, st, acts[0]) && Undamaged(c, Do(c, st, acts[0]).value, acts[1..]))
  }

  lemma {:induction false} RunKeeps(c: Config, st: State, acts: seq<Action>)
    requires c.Valid() && Inv(c, st) && Run(c, st, acts).Some? && Undamaged(c, st, acts)
    ensures Inv(c, Run(c, st, acts).value)
    decreases |acts|
  {
    hide Inv, Do, Intact;
    if acts != [] {
      StepKeeps(c, st, acts[0]);
      RunKeeps(c, Do(c, st, acts[0]).value, acts[1..]);
    }
  }

  /** Reached by a run in which nothing was lost or damaged. */
  ghost predicate ReachableIntact(c: Config, st: State)
    requires c.Valid()
  {
    exists st0: State, acts: seq<Action> :: Init(c, st0) && Run(c, st0, acts) == Some(st) && Undamaged(c, st0, acts)
  }

  lemma ReachableInv(c: Config, st: State)
    requires c.Valid() && ReachableIntact(c, st)
    ensures Inv(c, st)
  {
    hide Run, Undamaged, Config.Bitmap;
    var st0: State, acts: seq<Action> :|
      Init(c, st0) && Run(c, st0, acts) == Some(st) && Undamaged(c, st0, acts);
    RunKeeps(c, st0, acts);
  }

  /** Then every frame fits the agent's decode buffer with room to spare. */
  lemma NeverOverruns(c: Config, st: State)
    requires c.Valid() && Inv(c, st)
    ensures !Overruns(c, st)
    ensures EndsFrame(c, st) ==> |Parsed(st)| <= 522
  {
    hide LogOk, HostOk, FlightOk, AgentOk, BufferOk, CellsOk, Config.Bitmap, Config.Data, Config.DataPacket, Frame,
         PacketsIn, Cobs.Reach;
    if EndsFrame(c, st) {
      var n := PacketsIn(st.agent.got);
      NextByte(c, st.host, st.agent, st.ring, st.wire);
      FrameFits(c, st.agent.s, n);
      FrameDecodes(c, st.agent.s, n);
    }
  }

  // ---- The ring ----------------------------------------------------------------

  /** While the agent works, at most one sector of packets is between the host and
      the agent. */
  lemma OneSectorInFlight(c: Config, st: State)
    requires c.Valid() && Inv(c, st) && !st.agent.pc.Stopped?
    ensures |st.ring| + |st.wire| <= 523 * (c.sector / CHUNK)
  {
    hide LogOk, HostOk, FlightOk, AgentOk, BufferOk, CellsOk, Config.Bitmap;
    if !Quiet(c, st) { InFlightBound(c, st.host, st.agent, Flight(st)); }
  }

  predicate Keeps(act: Action)
  {
    !act.Lose? && !act.Garble? && !act.Break? && !act.LoseReply?
  }

  /** The wire itself loses and damages nothing. */
  predicate WireKeeps(acts: seq<Action>)
  {
    forall i :: 0 <= i < |acts| ==> Keeps(acts[i])
  }

  /** A ring that holds one sector of packets never drops a byte, in any run over a wire
      that loses none: all the results about undamaged runs hold of it. */
  lemma {:induction false} RingNeverDrops(c: Config, st: State, acts: seq<Action>)
    requires c.Valid() && RingFits(c) && Inv(c, st) && Run(c, st, acts).Some? && WireKeeps(acts)
    ensures Undamaged(c, st, acts)
    decreases |acts|
  {
    hide Inv, Do;
    if acts != [] {
      if !st.agent.pc.Stopped? { OneSectorInFlight(c, st); }
      assert acts[0] == Arrive ==> st.wire != [] by { ArriveNeedsByte(c, st, acts[0]); }
      StepKeeps(c, st, acts[0]);
      RingNeverDrops(c, Do(c, st, acts[0]).value, acts[1..]);
    }
  }

  lemma ArriveNeedsByte(c: Config, st: State, act: Action)
    requires c.page > 0 && c.sector > 0 && Do(c, st, act).Some?
    ensures act == Arrive ==> st.wire != []
  {
    hide HostDo, AgentDo;
  }

  /** 64 KiB sectors fit the 72 KiB ring. */
  lemma NorSectorFits(c: Config)
    requires c.sector <= 0x10000 && c.ring == SoftRing.RING_SIZE
    ensures RingFits(c) && 523 * (c.sector / CHUNK) <= 66944
  {
  }

  lemma FullPacketSize(c: Config, s: nat, k: nat)
    requires c.Hi(s) == c.Lo(s) + 0x20000 && k < 256
    ensures |c.Frames(s)(k)| >= 521
  {
    FrameShape(c.DataPacket(s, k));
  }

  lemma {:induction false} FullSectorSize(c: Config, s: nat, k: nat)
    requires c.Hi(s) == c.Lo(s) + 0x20000 && k <= 256
    ensures |c.WireOf(s, 256 - k, 256)| >= 521 * k
    decreases k
  {
    hide Config.Frames;
    if k > 0 {
      FullPacketSize(c, s, 256 - k);
      FullSectorSize(c, s, k - 1);
    }
  }

  /** One full 128 KiB sector of packets is longer than the whole ring. */
  lemma NandSectorOverflows(c: Config, s: nat)
    requires c.Hi(s) == c.Lo(s) + 0x20000
    ensures |c.WireOf(s, 0, 256)| > SoftRing.RING_SIZE
  {
    FullSectorSize(c, s, 256);
  }
}
