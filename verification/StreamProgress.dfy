/** Flash streaming always gets there: the host and the agent never wait for each
    other, every run is finite, and an undisturbed one ends in success. */
module StreamProgress {
  import opened Bits
  import opened Framing
  import opened Options
  import opened Nor
  import opened StreamModel
  import opened StreamInvariant
  import opened StreamSteps
  import opened StreamAgent
  import opened StreamLocal
  import opened StreamTheorems

  /** write_flash's bitmap loop. */
  method BuildBitmap(c: Config) returns (bitmap: seq<Byte>)
    requires c.sector > 0
    ensures bitmap == c.Bitmap()
  {
    bitmap := Fill((c.Sectors() + 7) / 8, 0);
    for s := 0 to c.Sectors()
      invariant bitmap == c.BitmapUpTo(s)
    {
      if !AllFf(c.Data(s)) { bitmap := MarkByte(bitmap, s); }
    }
  }

  /** Steps that need no timeout and no failure. */
  predicate Regular(act: Action)
  {
    act == HostStep || act == AgentStep || act == Arrive
  }

  predicate Enabled(c: Config, st: State)
    requires c.page > 0 && c.sector > 0
  {
    Do(c, st, HostStep).Some? || Do(c, st, AgentStep).Some? || Do(c, st, Arrive).Some?
  }

  // ---- Nobody waits for nothing ------------------------------------------------------

  lemma AgentMoves(c: Config, st: State)
    requires c.Valid() && c.Accepted() && Running(c, st) && !st.agent.pc.Stopped?
    requires st.agent.pc == Recv ==> st.agent.got >= |c.Data(st.agent.s)| || st.ring != []
    ensures AgentDo(c, st).Some?
  {
    hide Running, Config.Data, Config.Flagged, Config.Sectors;
    var a := st.agent;
    match a.pc
    case Check =>
    case Top =>
      if a.s >= c.Sectors() { AgentFinishes(c, st); }
      else if c.Flagged(a.s) { AgentOpens(c, st); }
      else { AgentClears(c, st); }
    case SkipErase => AgentErases(c, st);
    case SkipReport => AgentReportsSkip(c, st);
    case Recv =>
      if a.got >= |c.Data(a.s)| { AgentSectorDone(c, st); }
      else if st.ring[0] == 0 { AgentTakesPacket(c, st); }
      else { AgentBuffersByte(c, st); }
    case Report => AgentReports(c, st);
    case Program => AgentPrograms(c, st);
  }

  /** A packet that is due and not yet complete still has bytes on the way. */
  lemma BytesComing(c: Config, h: Host, a: Agent)
    requires c.Valid() && AgentOk(c, a) && BufferOk(c, a) && HostOk(c, h, a)
    requires a.pc == Recv && a.got < |c.Data(a.s)| && a.s == h.s && h.k == c.Packets(h.s)
    ensures !FlightOk(c, h, a, a.frame)
  {
    hide BufferOk, AgentOk, HostOk, Config.Data, Config.Packets, Config.DataPacket, Config.Flagged, Frame, PacketsIn;
    FullSector(c, a);
    var n := PacketsIn(a.got);
    var f := c.Frames(h.s)(n);
    assert c.WireOf(h.s, n, h.k) == f + c.WireOf(h.s, n + 1, h.k);
    assert f[|f| - 1] == 0;
    assert (f + c.WireOf(h.s, n + 1, h.k))[|f| - 1] == 0;
  }

  lemma HostStarved(c: Config, h: Host, a: Agent, replies: seq<Reply>, sent: seq<Reply>)
    requires c.Valid() && AgentOk(c, a) && HostOk(c, h, a) && LogOk(c, h, a, replies, sent)
    requires h.pc != Send && !h.pc.Finished? && replies == []
    ensures !a.pc.Stopped? && (a.pc == Recv ==> a.s == h.s && h.k == c.Packets(h.s))
  {
  }

  /** Unless the host has finished, some side can move: host and agent are never
      both waiting. */
  lemma NeverStuck(c: Config, st: State)
    requires c.Valid() && Inv(c, st) && !st.host.pc.Finished?
    ensures Enabled(c, st)
  {
    if !Quiet(c, st) && !HostDo(c, st).Some? && st.wire == [] {
      hide LogOk, HostOk, FlightOk, AgentOk, BufferOk, CellsOk, AgentDo, Config.Data;
      var h, a := st.host, st.agent;
      HostStarved(c, h, a, st.replies, st.sent);
      if a.pc == Recv && a.got < |c.Data(a.s)| && st.ring == [] {
        assert Flight(st) == a.frame;
        BytesComing(c, h, a);
      } else {
        AgentMoves(c, st);
      }
    }
  }

  // ---- Every run is finite ---------------------------------------------------------

  /** What is left to do for the host, in packets and replies. */
  ghost function HostRank(c: Config, h: Host): int
    requires c.sector > 0
  {
    var per := c.sector / CHUNK + 3;
    match h.pc
    case WaitAck => (c.Sectors() + 1) * per
    case Send => (c.Sectors() - h.s) * per + per - 2 - h.k
    case WaitProgress => (c.Sectors() - h.s) * per
    case WaitFinal => 1
    case Finished(_) => 0
  }

  ghost function AgentRank(c: Config, a: Agent): int
    requires c.sector > 0
  {
    var left := 4 * (c.Sectors() - a.s);
    match a.pc
    case Check => 4 * c.Sectors() + 3
    case Top => left + 2
    case SkipErase => left + 1
    case Recv => left + 1
    case SkipReport => left
    case Report => left
    case Program => left - 1
    case Stopped(_, _) => 0
  }

  ghost function Rank(c: Config, st: State): int
    requires c.sector > 0
  {
    1047 * HostRank(c, st.host) + 2 * |st.wire| + |st.ring| + 2 * AgentRank(c, st.agent) + |st.replies|
  }

  lemma HostRankDrops(c: Config, h: Host)
    requires c.Valid() && HostLocal(c, h)
    ensures HostRank(c, h) >= 0 && (!h.pc.Finished? ==> HostRank(c, h) >= 1)
    ensures h.pc == Send && h.k < c.Packets(h.s) ==> HostRank(c, h.(k := h.k + 1)) < HostRank(c, h)
    ensures h.pc == Send ==> HostRank(c, h.(pc := WaitProgress)) < HostRank(c, h)
    ensures h.pc == WaitProgress ==> HostRank(c, HostAt(c, h.s + 1)) < HostRank(c, h)
    ensures h.pc == WaitAck ==> HostRank(c, HostAt(c, 0)) < HostRank(c, h)
  {
    hide Config.Sectors, Config.Packets, Config.Bitmap;
    PacketsBound(c, h.s);
    SectorProducts(c.Sectors(), h.s, c.sector / CHUNK + 3);
  }

  lemma SectorProducts(n: nat, s: nat, per: nat)
    requires s <= n
    ensures (n + 1) * per == n * per + per && (n - 0) * per == n * per >= 0 && (n - s) * per >= 0
    ensures s < n ==> (n - s) * per == (n - (s + 1)) * per + per && (n - (s + 1)) * per >= 0
  {
    MulLe(0, n, per);
    MulLe(0, n - s, per);
    if s < n { MulLe(0, n - s - 1, per); }
  }

  lemma HostStepDrops(c: Config, st: State)
    requires c.Valid() && HostLocal(c, st.host) && HostDo(c, st).Some?
    ensures Rank(c, HostDo(c, st).value) < Rank(c, st)
  {
    hide HostLocal, HostRank, AgentRank, HostAt, Config.Frames, Config.Packets, Config.Sectors, Config.Bitmap;
    HostRankDrops(c, st.host);
    var h, st' := st.host, HostDo(c, st).value;
    if h.pc == Send {
      if h.k < c.Packets(h.s) { PacketSize(c, h.s, h.k); }
    } else {
      FinishedRank(c, h, true);
      FinishedRank(c, h, false);
    }
  }

  lemma FinishedRank(c: Config, h: Host, ok: bool)
    requires c.sector > 0
    ensures HostRank(c, h.(pc := Finished(ok))) == 0
  {
  }

  /** The agent's control steps: at most one reply each. */
  lemma ControlDrops(c: Config, st: State)
    requires c.Valid() && AgentLocal(c, st.agent) && AgentDo(c, st).Some?
    requires st.agent.pc == Recv ==> st.agent.got >= |c.Data(st.agent.s)|
    ensures Rank(c, AgentDo(c, st).value) < Rank(c, st)
  {
    hide Config.Data, Config.Flagged, Config.Sectors, Config.Bitmap, HostRank, Flush, Deliver, Splice, Placed;
    var st' := AgentDo(c, st).value;
    assert AgentRank(c, st'.agent) < AgentRank(c, st.agent);
  }

  /** Receiving takes a byte out of the ring, or ends the transfer. */
  lemma ReceiveDrops(c: Config, st: State)
    requires c.Valid() && AgentLocal(c, st.agent) && AgentDo(c, st).Some?
    requires st.agent.pc == Recv && st.agent.got < |c.Data(st.agent.s)|
    ensures Rank(c, AgentDo(c, st).value) < Rank(c, st)
  {
    hide Config.Data, Config.Flagged, Config.Sectors, Config.Bitmap, HostRank, Deliver, Placed;
    ReceiveFrame(c, st);
    AgentRankRecv(c, st.agent);
  }

  lemma AgentRankRecv(c: Config, a: Agent)
    requires c.Valid() && AgentLocal(c, a) && a.pc == Recv
    ensures AgentRank(c, a) >= 5
  {
    hide Config.Data, Config.Flagged, Config.Bitmap;
  }

  /** Receiving moves neither the sector nor the host nor the wire. */
  lemma ReceiveFrame(c: Config, st: State)
    requires c.Valid() && st.agent.pc == Recv && AgentDo(c, st).Some? && st.agent.got < |c.Data(st.agent.s)|
    ensures var st' := AgentDo(c, st).value;
            && st'.agent.s == st.agent.s && st'.host == st.host && st'.wire == st.wire && st.ring != []
            && |st'.ring| == |st.ring| - 1
            && ((st'.agent.pc == Recv && st'.replies == st.replies)
                || (st'.agent.pc.Stopped? && |st'.replies| == |st.replies| + 1))
  {
    hide Parse, Splice, Config.Data, Config.Bitmap;
  }

  lemma RankPositive(c: Config, st: State)
    requires c.Valid() && Local(c, st)
    ensures Rank(c, st) >= 0
  {
    hide HostLocal, HostRank, Placed, OutsideKept, Config.Flagged, Config.Sectors, Config.Bitmap;
    HostRankDrops(c, st.host);
  }

  lemma StopDrops(c: Config, st: State, cells: seq<Byte>, reported: nat)
    requires c.Valid() && AgentLocal(c, st.agent) && !st.agent.pc.Stopped?
    ensures Rank(c, Stop(st.(cells := cells), false, reported)) < Rank(c, st)
  {
    hide HostRank, Placed, Config.Flagged, Config.Sectors, Config.Bitmap;
  }

  lemma HostTimeoutDrops(c: Config, st: State)
    requires c.Valid() && HostLocal(c, st.host) && !st.host.pc.Finished?
    ensures Rank(c, st.(host := st.host.(pc := Finished(false)))) < Rank(c, st)
  {
    hide HostLocal, HostRank, AgentRank, Config.Bitmap;
    HostRankDrops(c, st.host);
    FinishedRank(c, st.host, false);
  }

  lemma SameRank(c: Config, a: Agent)
    requires c.sector > 0
    ensures AgentRank(c, a.(frame := [])) == AgentRank(c, a)
  {
  }

  /** Every step, disturbed or not, whatever it loses or damages, uses up some of a
      bounded amount of work. */
  lemma StepDrops(c: Config, st: State, act: Action)
    requires c.Valid() && Local(c, st) && Do(c, st, act).Some?
    ensures Rank(c, Do(c, st, act).value) < Rank(c, st)
  {
    hide HostLocal, AgentLocal, OutsideKept, HostDo, AgentDo, HostRank, AgentRank, EraseTarget, Config.Data,
      Config.Bitmap;
    match act
    case HostStep => HostStepDrops(c, st);
    case AgentStep =>
      if st.agent.pc == Recv && st.agent.got < |c.Data(st.agent.s)| {
        ReceiveDrops(c, st);
      } else {
        ControlDrops(c, st);
      }
    case Arrive =>
    case Lose =>
    case Garble(_) =>
    case Break => SameRank(c, st.agent);
    case LoseReply(_) =>
    case AgentTimeout => StopDrops(c, st, st.cells, st.agent.s);
    case HostTimeout => HostTimeoutDrops(c, st);
    case EraseFails(junk) =>
      TargetNotStopped(c, st.agent);
      StopDrops(c, st, Splice(st.cells, EraseTarget(c, st.agent).value, junk), Reported(st.agent));
  }

  /** No run of any kind is longer than the work in its first state. */
  lemma {:induction false} RunsAreFinite(c: Config, st: State, acts: seq<Action>)
    requires c.Valid() && Local(c, st) && Run(c, st, acts).Some?
    ensures |acts| <= Rank(c, st)
    decreases |acts|
  {
    hide Local, Do, Rank;
    RankPositive(c, st);
    if acts != [] {
      StepLocal(c, st, acts[0]);
      StepDrops(c, st, acts[0]);
      RunsAreFinite(c, Do(c, st, acts[0]).value, acts[1..]);
    }
  }

  // ---- Undisturbed runs succeed -----------------------------------------------------

  /** Nothing has gone wrong so far. */
  ghost predicate Healthy(st: State)
  {
    st.host.pc != Finished(false) && (st.agent.pc.Stopped? ==> st.agent.pc.ok)
  }

  lemma HostStaysHealthy(c: Config, st: State)
    requires c.Valid() && c.Accepted() && Running(c, st) && Healthy(st) && HostDo(c, st).Some?
    ensures Healthy(HostDo(c, st).value)
  {
    hide LogOk, HostOk, AgentOk, FlightOk, BufferOk, CellsOk, Config.Packets, Config.Frames;
    if st.host.pc != Send { NextReply(c, st.host, st.agent, st.replies, st.sent); }
  }

  lemma AgentStaysHealthy(c: Config, st: State)
    requires c.Valid() && c.Accepted() && Running(c, st) && Healthy(st) && AgentDo(c, st).Some?
    ensures Healthy(AgentDo(c, st).value)
  {
    hide LogOk, HostOk, AgentOk, FlightOk, BufferOk, CellsOk, Config.Data, Config.Flagged, Config.Sectors, Flush,
      Deliver, Receive, Config.Bitmap;
    if st.agent.pc == Recv {
      if st.agent.got < |c.Data(st.agent.s)| {
        ReceiveFrame(c, st);
        if st.ring[0] == 0 { AgentTakesPacket(c, st); } else { AgentBuffersByte(c, st); }
      } else {
        FullBuffer(c, st);
      }
    }
  }

  lemma FullBuffer(c: Config, st: State)
    requires st.agent.pc == Recv && st.agent.got >= |c.Data(st.agent.s)|
    ensures Receive(c, st) == Some(st.(agent := st.agent.(pc := Report)))
  {
    hide Config.Data;
  }

  lemma {:induction false} RegularRunHealthy(c: Config, st: State, acts: seq<Action>)
    requires c.Valid() && c.Accepted() && Inv(c, st) && Healthy(st) && Run(c, st, acts).Some?
    requires Undamaged(c, st, acts) && forall i :: 0 <= i < |acts| ==> Regular(acts[i])
    ensures Healthy(Run(c, st, acts).value)
    decreases |acts|
  {
    hide Intact, Running, Quiet, HostDo, AgentDo, Healthy;
    if acts != [] {
      var act := acts[0];
      StepKeeps(c, st, act);
      RegularStepHealthy(c, st, act);
      RegularRunHealthy(c, Do(c, st, act).value, acts[1..]);
    }
  }

  lemma RegularStepHealthy(c: Config, st: State, act: Action)
    requires c.Valid() && c.Accepted() && Inv(c, st) && Healthy(st) && Regular(act) && Do(c, st, act).Some?
    ensures Healthy(Do(c, st, act).value)
  {
    hide Running, HostDo, AgentDo;
    if Quiet(c, st) { QuietHealthy(c, st, act); }
    else if act == HostStep { HostStaysHealthy(c, st); }
    else if act == AgentStep { AgentStaysHealthy(c, st); }
  }

  lemma QuietHealthy(c: Config, st: State, act: Action)
    requires c.Valid() && c.Accepted() && Quiet(c, st) && Healthy(st) && Regular(act) && Do(c, st, act).Some?
    ensures Healthy(Do(c, st, act).value)
  {
  }

  /** An undisturbed run that can go no further has succeeded: the host returned
      True, every reply was read, and the agent sent the start ACK, one progress
      packet per sector in order and one final ACK. */
  lemma UndisturbedRunsSucceed(c: Config, st0: State, acts: seq<Action>, st: State)
    requires c.Valid() && |c.image| > 0 && c.addr + |c.image| <= |c.cells|
    requires Init(c, st0) && Run(c, st0, acts) == Some(st) && !Enabled(c, st)
    requires Undamaged(c, st0, acts) && forall i :: 0 <= i < |acts| ==> Regular(acts[i])
    ensures st.host.pc == Finished(true) && st.replies == []
    ensures |st.sent| == c.Sectors() + 2 && st.sent[0] == Ack(ACK_OK) && st.sent[c.Sectors() + 1] == Ack(ACK_OK)
    ensures forall i :: 1 <= i <= c.Sectors() ==> st.sent[i] == Progress(i % 65536, c.Sectors() % 65536)
  {
    hide HostDo, AgentDo, FlightOk, BufferOk, CellsOk, Config.Sectors, Config.Bitmap, Undamaged, Config.Accepted;
    AcceptedExactly(c);
    RunKeeps(c, st0, acts);
    RegularRunHealthy(c, st0, acts);
    if !st.host.pc.Finished? { NeverStuck(c, st); }
  }

  /** From any healthy state the two sides can go on to success, letting a byte arrive
      only when neither can move: then the ring is empty. */
  lemma {:induction false} Completes(c: Config, st: State) returns (acts: seq<Action>, end: State)
    requires c.Valid() && c.Accepted() && Inv(c, st) && Local(c, st) && Healthy(st)
    ensures Run(c, st, acts) == Some(end) && end.host.pc == Finished(true) && Undamaged(c, st, acts)
    decreases Rank(c, st)
  {
    hide Inv, Do, Rank, HostLocal, AgentLocal, OutsideKept, Config.Bitmap;
    if st.host.pc.Finished? {
      acts, end := [], st;
    } else {
      NeverStuck(c, st);
      var act := if Do(c, st, HostStep).Some? then HostStep
                 else if Do(c, st, AgentStep).Some? then AgentStep else Arrive;
      if act == Arrive { IdleRing(c, st); }
      StepKeeps(c, st, act);
      StepLocal(c, st, act);
      StepDrops(c, st, act);
      RankPositive(c, Do(c, st, act).value);
      RegularStepHealthy(c, st, act);
      acts, end := Completes(c, Do(c, st, act).value);
      assert ([act] + acts)[1..] == acts;
      acts := [act] + acts;
    }
  }

  lemma IdleRing(c: Config, st: State)
    requires c.Valid() && Inv(c, st) && Local(c, st) && Do(c, st, AgentStep) == None
    ensures Intact(c, st, Arrive)
  {
    hide Inv, AgentDo, HostLocal, AgentLocal, OutsideKept, Config.Bitmap, Overruns, Config.Data;
    NeverOverruns(c, st);
    AgentWaits(c, st);
  }

  /** The agent takes an image that is not empty and ends on the chip, and no other. */
  lemma AcceptedExactly(c: Config)
    requires c.Valid()
    ensures c.Accepted() <==> |c.image| > 0 && c.addr + |c.image| <= |c.cells|
  {
    assert |c.Bitmap()| == (c.Sectors() + 7) / 8;
  }

  /** Every transfer of an image that is not empty and ends on the chip can end in success,
      with the agent's ring or any other. */
  lemma SuccessReachable(c: Config, st0: State) returns (end: State)
    requires c.Valid() && |c.image| > 0 && c.addr + |c.image| <= |c.cells| && Init(c, st0)
    ensures ReachableIntact(c, end) && end.host.pc == Finished(true)
  {
    hide Run, Undamaged, Config.Bitmap, Config.Accepted;
    AcceptedExactly(c);
    StartLocal(c, st0);
    var acts;
    acts, end := Completes(c, st0);
  }
}
