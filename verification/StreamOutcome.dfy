/** What a flash stream leaves in the flash, over any wire and into any ring. */
module StreamOutcome {
  import opened Bits
  import opened Framing
  import opened Nor
  import opened Options
  import opened StreamModel
  import opened StreamInvariant
  import opened StreamSteps
  import opened StreamAgent
  import opened StreamLossy
  import opened StreamTheorems
  import opened StreamProgress
  import SoftRing

  /** The run reaches st, and in no step of it did a stretch of bytes that is not a packet
      of the host pass its CRC-32. */
  ghost predicate Honest(c: Config, st0: State, acts: seq<Action>, st: State)
    requires c.Valid()
  {
    Init(c, st0) && Run(c, st0, acts) == Some(st) && Undeceived(c, Traced(st0, [], 0), acts)
  }

  lemma HonestEnd(c: Config, st0: State, acts: seq<Action>, st: State) returns (end: Traced)
    requires c.Valid() && Honest(c, st0, acts, st)
    ensures Holds(c, end) && end.st == st
  {
    hide Run, Undeceived, Config.Bitmap, Going;
    end := RunHolds(c, Traced(st0, [], 0), acts);
  }

  // ---- Success -------------------------------------------------------------------------

  /** When the host reports success, the covered sectors hold what the image leaves
      behind page by page, then 0xFF, and nothing else changed. */
  lemma FlashWritten(c: Config, st0: State, acts: seq<Action>, st: State)
    requires c.Valid() && Honest(c, st0, acts, st) && st.host.pc == Finished(true)
    ensures c.addr + c.Sectors() * c.sector <= |c.cells| && |c.image| <= c.Sectors() * c.sector
    ensures st.cells == Splice(c.cells, c.addr,
                               StoredPages(c.image, c.page) + Fill(c.Sectors() * c.sector - |c.image|, 255))
  {
    hide Heard, Coming, Filled, AgentOk, PendingHolds, StoredPages, Splice, Honest, Config.Bitmap, Config.Packets,
      Config.Sectors, Config.Lo, Config.Data;
    var end := HonestEnd(c, st0, acts, st);
    CoverFits(c);
    SectorCount(c, c.Sectors());
    assert c.image[..|c.image|] == c.image;
  }

  /** Success means the image is in flash byte for byte exactly when its last page
      does not end in a partial word behind words of 0xFF. */
  lemma FlashHoldsImage(c: Config, st0: State, acts: seq<Action>, st: State)
    requires c.Valid() && Honest(c, st0, acts, st) && st.host.pc == Finished(true)
    ensures c.addr + |c.image| <= c.addr + c.Sectors() * c.sector <= |st.cells| == |c.cells|
    ensures st.cells[c.addr..c.addr + |c.image|] == c.image <==> !TailLost(c.image, c.page)
    ensures forall i :: c.addr + |c.image| <= i < c.addr + c.Sectors() * c.sector ==> st.cells[i] == 255
    ensures forall i :: 0 <= i < c.addr || c.addr + c.Sectors() * c.sector <= i < |c.cells| ==>
              st.cells[i] == c.cells[i]
  {
    hide StoredPages, TailLost, Config.Sectors, Honest, Config.Bitmap;
    FlashWritten(c, st0, acts, st);
    StoredPagesExact(c.image, c.page);
    assert st.cells[c.addr..c.addr + |c.image|] == StoredPages(c.image, c.page);
  }

  /** In particular the image is exact for every length that is a multiple of 4. */
  lemma WordSizedImagesExact(c: Config, st0: State, acts: seq<Action>, st: State)
    requires c.Valid() && Honest(c, st0, acts, st) && st.host.pc == Finished(true) && |c.image| % 4 == 0
    ensures c.addr + |c.image| <= |st.cells| && st.cells[c.addr..c.addr + |c.image|] == c.image
  {
    hide Honest, Config.Sectors, Config.Bitmap;
    FlashHoldsImage(c, st0, acts, st);
  }

  /** A pending sector sits complete in the buffer that is not being filled, and
      exactly the sectors before it are final in flash. */
  lemma DoubleBuffer(c: Config, st0: State, acts: seq<Action>, st: State)
    requires c.Valid() && Honest(c, st0, acts, st)
    requires st.agent.pc != Check && !st.agent.pc.Stopped? && st.agent.pending >= 0
    ensures var a := st.agent;
            && c.Accepted() && 0 < a.s <= c.Sectors() && a.pending != a.rx
            && a.pending * SPACING + a.pendingBytes <= |a.ram|
            && a.ram[a.pending * SPACING..a.pending * SPACING + a.pendingBytes] == c.Data(a.s - 1)
            && a.pendingAddr == c.addr + (a.s - 1) * c.sector
            && SettledAt(c, a.s - 1, st.cells)
  {
    hide Heard, HostOk, Coming, Filled, Honest, SettledAt, Config.Data, Config.Sectors, Config.Bitmap, Config.Flagged;
    var end := HonestEnd(c, st0, acts, st);
    assert st.agent.pc != SkipReport || st.agent.pending == -1;
  }

  // ---- A wire and a ring that keep every byte ----------------------------------------------

  /** The bytes in flight are consecutive, up to the last one the host sent. */
  ghost predicate Consecutive(c: Config, h: Host, tags: seq<nat>)
  {
    forall i :: 0 <= i < |tags| ==> tags[i] + |tags| == Pos(c, h.s, h.k) + i
  }

  lemma {:induction false} GlueLength(f: nat -> seq<Byte>, i: nat, n: nat, k: nat)
    requires i <= n <= k
    ensures |Glue(f, i, k)| == |Glue(f, i, n)| + |Glue(f, n, k)|
    decreases n - i
  {
    if i < n { GlueLength(f, i + 1, n, k); }
  }

  /** With every byte in place, the next frame to end is the next packet. */
  lemma NextIsGenuine(c: Config, t: Traced)
    requires c.Valid() && c.Accepted() && Running(c, t.st) && EndsFrame(c, t.st)
    requires |t.tags| == |Flight(t.st)| && Consecutive(c, t.st.host, t.tags)
    ensures exists k :: Genuine(c, t, k)
  {
    hide LogOk, HostOk, AgentOk, BufferOk, CellsOk, FlightOk, Frame, Config.Data, Config.Packets, Config.Flagged,
      Config.Sectors, Config.DataPacket, Config.Bitmap, PacketsIn;
    var st, h, a := t.st, t.st.host, t.st.agent;
    var k := PacketsIn(a.got);
    NextByte(c, h, a, st.ring, st.wire);
    FrameFits(c, a.s, k);
    assert st.ring[0] == 0;
    assert a.frame + [0] == c.Frames(h.s)(k);
    FlightFrom(c, t);
    PosNext(c, h.s, k);
    var n, r := |a.frame|, Range(Pos(c, h.s, k), Pos(c, h.s, k) + |a.frame|);
    assert forall i :: 0 <= i < n ==> t.tags[..n][i] == r[i];
    assert t.tags[..n] == r;
    assert Genuine(c, t, k);
  }

  lemma FlightFrom(c: Config, t: Traced)
    requires c.Valid() && c.Accepted() && Running(c, t.st) && EndsFrame(c, t.st) && t.st.agent.s == t.st.host.s
    requires |t.tags| == |Flight(t.st)|
    ensures |t.tags| + Pos(c, t.st.host.s, PacketsIn(t.st.agent.got)) == Pos(c, t.st.host.s, t.st.host.k)
    ensures |t.st.agent.frame| + 1 <= |t.tags|
  {
    hide LogOk, HostOk, AgentOk, BufferOk, CellsOk, Config.Data, Config.Packets, Config.Frames, Config.Flagged,
      Config.Sectors, Config.Bitmap, PacketsIn;
    GlueLength(c.Frames(t.st.host.s), 0, PacketsIn(t.st.agent.got), t.st.host.k);
  }

  /** Every byte in flight is accounted for. */
  ghost predicate Exact(c: Config, t: Traced)
  {
    t.st.agent.pc.Stopped? || (|t.tags| == |Flight(t.st)| && Consecutive(c, t.st.host, t.tags))
  }

  lemma ExactSend(c: Config, t: Traced)
    requires c.Valid() && Exact(c, t) && !t.st.agent.pc.Stopped?
    requires t.st.host.pc == Send && t.st.host.k < c.Packets(t.st.host.s)
    ensures Exact(c, Trace(c, t, HostStep))
  {
    hide Pos, Config.Frames, Config.Packets, Config.Bitmap;
    PosNext(c, t.st.host.s, t.st.host.k);
  }

  /** Nothing is in flight when the host turns to a new sector. */
  lemma EntersEmpty(c: Config, st: State)
    requires c.Valid() && c.Accepted() && Running(c, st) && !st.agent.pc.Stopped?
    requires st.host.pc == WaitAck || (st.host.pc == WaitProgress && st.host.s < Reported(st.agent))
    ensures Flight(st) == []
  {
    hide LogOk, AgentOk, BufferOk, CellsOk, Config.Data, Config.Packets, Config.Flagged, Config.Sectors, Config.Bitmap,
      Config.Frames, PacketsIn;
  }

  lemma ExactHost(c: Config, t: Traced)
    requires c.Valid() && c.Accepted() && Running(c, t.st) && Exact(c, t) && HostDo(c, t.st).Some?
    ensures Exact(c, Trace(c, t, HostStep))
  {
    hide LogOk, HostOk, AgentOk, BufferOk, CellsOk, FlightOk, Config.Packets, Config.Frames, Config.Bitmap, Pos;
    var st, h := t.st, t.st.host;
    if !st.agent.pc.Stopped? {
      if h.pc == Send && h.k < c.Packets(h.s) {
        ExactSend(c, t);
      } else if h.pc != Send {
        NextReply(c, h, st.agent, st.replies, st.sent);
        if h.pc == WaitAck || (h.pc == WaitProgress && h.s < Reported(st.agent)) { EntersEmpty(c, st); }
      }
    }
  }

  lemma ExactAgent(c: Config, t: Traced)
    requires c.Valid() && c.Accepted() && Running(c, t.st) && Exact(c, t) && AgentDo(c, t.st).Some?
    ensures Exact(c, Trace(c, t, AgentStep))
  {
    hide LogOk, HostOk, AgentOk, BufferOk, CellsOk, FlightOk, Config.Data, Config.Flagged, Config.Sectors,
         Config.Bitmap, Pos, Flush, Deliver, Running;
    if !AgentDo(c, t.st).value.agent.pc.Stopped? { AgentFlight(c, t.st); }
  }

  /** An agent step changes what is in flight only by taking a frame out of it. */
  lemma AgentFlight(c: Config, st: State)
    requires c.Valid() && AgentDo(c, st).Some? && !AgentDo(c, st).value.agent.pc.Stopped?
    ensures var st' := AgentDo(c, st).value;
            && st'.host == st.host
            && (EndsFrame(c, st) ==> |Flight(st')| + |st.agent.frame| + 1 == |Flight(st)|)
            && (!EndsFrame(c, st) ==> |Flight(st')| == |Flight(st)|)
  {
    hide Config.Data, Config.Flagged, Config.Sectors, Config.Bitmap, Flush, Splice, Parse;
  }

  lemma ExactStep(c: Config, t: Traced, act: Action)
    requires c.Valid() && Inv(c, t.st) && Exact(c, t) && Do(c, t.st, act).Some? && Intact(c, t.st, act)
    ensures Exact(c, Trace(c, t, act))
  {
    hide Running, Quiet, HostDo, AgentDo, Consecutive, Config.Bitmap, Config.Data, EndsFrame, NextAfter;
    if Quiet(c, t.st) {
      ExactQuiet(c, t, act);
    } else {
      match act
      case HostStep => ExactHost(c, t);
      case AgentStep => ExactAgent(c, t);
      case Arrive =>
      case AgentTimeout =>
      case HostTimeout =>
        if !t.st.agent.pc.Stopped? { SameConsecutive(c, t.st.host, t.st.host.(pc := Finished(false)), t.tags); }
      case EraseFails(_) => TargetNotStopped(c, t.st.agent);
    }
  }

  lemma SameConsecutive(c: Config, h: Host, h': Host, tags: seq<nat>)
    requires Consecutive(c, h, tags) && h'.s == h.s && h'.k == h.k
    ensures Consecutive(c, h', tags)
  {
  }

  lemma ExactQuiet(c: Config, t: Traced, act: Action)
    requires c.Valid() && Quiet(c, t.st) && Exact(c, t) && Do(c, t.st, act).Some?
    ensures Exact(c, Trace(c, t, act))
  {
    hide Config.Data, Config.Flagged, Config.Sectors, Config.Bitmap, Config.Packets, Config.Frames, Pos;
  }

  /** A run that loses and damages nothing is never deceived: the condition of the results
      above is about damage only. */
  lemma {:induction false} UndamagedUndeceived(c: Config, t: Traced, acts: seq<Action>)
    requires c.Valid() && Inv(c, t.st) && Exact(c, t) && Run(c, t.st, acts).Some? && Undamaged(c, t.st, acts)
    ensures Undeceived(c, t, acts)
    decreases |acts|
  {
    hide Inv, Do, Intact, Deceived, TagsAfter, NextAfter, Exact;
    if acts != [] {
      NotDeceived(c, t);
      ExactStep(c, t, acts[0]);
      StepKeeps(c, t.st, acts[0]);
      UndamagedUndeceived(c, Trace(c, t, acts[0]), acts[1..]);
    }
  }

  lemma NotDeceived(c: Config, t: Traced)
    requires c.Valid() && Inv(c, t.st) && Exact(c, t)
    ensures !Deceived(c, t)
  {
    hide Running, Genuine, Parse, Config.Bitmap, Config.Data, Consecutive;
    if EndsFrame(c, t.st) { NextIsGenuine(c, t); }
  }

  lemma IntactHonest(c: Config, st: State) returns (st0: State, acts: seq<Action>)
    requires c.Valid() && ReachableIntact(c, st)
    ensures Honest(c, st0, acts, st)
  {
    hide Run, Undamaged, Undeceived, Config.Bitmap;
    st0, acts :| Init(c, st0) && Run(c, st0, acts) == Some(st) && Undamaged(c, st0, acts);
    UndamagedUndeceived(c, Traced(st0, [], 0), acts);
  }

  /** In particular in every run over a wire that loses and damages nothing, into a ring
      that holds one sector of packets. */
  lemma RingIsEnough(c: Config, st0: State, acts: seq<Action>, st: State)
    requires c.Valid() && RingFits(c) && Init(c, st0) && Run(c, st0, acts) == Some(st) && WireKeeps(acts)
    ensures Honest(c, st0, acts, st)
  {
    hide Run, Undamaged, Undeceived, Config.Bitmap;
    RingNeverDrops(c, st0, acts);
    UndamagedUndeceived(c, Traced(st0, [], 0), acts);
  }

  // ---- Transfers the agent refuses -----------------------------------------------------------

  lemma {:induction false} RefusedIdle(c: Config, st: State, acts: seq<Action>)
    requires c.Valid() && !c.Accepted() && Idle(c, st) && Run(c, st, acts).Some?
    ensures Idle(c, Run(c, st, acts).value)
    decreases |acts|
  {
    hide Idle, Do, Config.Bitmap, Config.Accepted;
    if acts != [] {
      var act := acts[0];
      if act == HostStep || act == HostTimeout || act.LoseReply? {
        IdleHost(c, st, act);
      } else {
        IdleAgent(c, st, act);
      }
      RefusedIdle(c, Do(c, st, act).value, acts[1..]);
    }
  }

  /** An image that is empty or ends behind the chip: in every run, disturbed or not, the
      flash stays as it is, and when nothing can happen any more the host has returned
      False. */
  lemma RefusedFails(c: Config, st0: State, acts: seq<Action>, st: State)
    requires c.Valid() && (|c.image| == 0 || c.addr + |c.image| > |c.cells|)
    requires Init(c, st0) && Run(c, st0, acts) == Some(st)
    ensures st.cells == c.cells && st.host.pc != Finished(true)
    ensures (forall act :: Do(c, st, act) == None) ==> st.host.pc == Finished(false)
  {
    hide Run, Config.Bitmap, Config.Accepted;
    AcceptedExactly(c);
    RefusedIdle(c, st0, acts);
    hide Do;
    if st.host.pc != Finished(false) { SomethingLeft(c, st); }
  }

  lemma SomethingLeft(c: Config, st: State)
    requires c.Valid() && !c.Accepted() && Idle(c, st) && st.host.pc != Finished(false)
    ensures Do(c, st, AgentStep).Some? || Do(c, st, HostTimeout).Some?
  {
    hide Config.Bitmap, Config.Accepted;
  }

  // ---- The lost tail ------------------------------------------------------------------------

  /** Five bytes for the first sector of an erased NOR chip. */
  const TAIL: seq<Byte> := [255, 255, 255, 255, 0]

  ghost function TailConfig(): (c: Config)
    ensures c.Valid() && c.image == TAIL && c.page == 256 && c.addr == 0 && |c.cells| == 0x10000
  {
    var c := Config(0, TAIL, 0x10000, 256, Fill(0x10000, 255), SoftRing.RING_SIZE, []);
    var d := c.(bitmap := c.Bitmap());
    SameBitmap(c, c.Bitmap(), c.Sectors());
    d
  }

  /** An undisturbed transfer, with the agent's ring and sector size, that the host reports
      as a success and after which the flash does not hold the image. */
  lemma LostTail() returns (c: Config, st0: State, acts: seq<Action>, st: State)
    ensures c.Valid() && Honest(c, st0, acts, st) && st.host.pc == Finished(true)
    ensures |c.image| == 5 <= |st.cells| && st.cells[..5] != c.image
  {
    hide Honest, Config.Bitmap, TailLost, TailConfig;
    c := TailConfig();
    st0 := State(Host(WaitAck, 0, 0), Agent(Check, 0, 0, 0, -1, 0, 0, Fill(2 * SPACING, 0), []),
                 [], [], [], [], c.cells);
    st := SuccessReachable(c, st0);
    st0, acts := IntactHonest(c, st);
    TailIsLost();
    FlashHoldsImage(c, st0, acts, st);
    assert st.cells[0..5] == st.cells[..5];
  }

  lemma TailIsLost()
    ensures TailLost(TAIL, 256)
  {
    assert LastPage(5, 256) == 0 && TAIL[0..] == TAIL;
    assert TAIL[4..][0] == 0;
  }
}
