/** proto_recv collects up to 1056 bytes of a frame and decodes them into a buffer of 1040.
    Frames of the host fit; a damaged stretch need not. */
module StreamOverrun {
  import opened Bits
  import opened Framing
  import opened Options
  import opened StreamModel
  import opened StreamInvariant
  import opened StreamLocal
  import Cobs
  import SoftRing

  /** Only a stretch of more than 1041 bytes can overrun the buffer; and every length above
      that has a stretch that does (Cobs.FitsExactly). */
  lemma OverrunsAreLong(c: Config, st: State)
    requires Overruns(c, st)
    ensures |Parsed(st)| > 1041
  {
    hide Cobs.Reach, Config.Data;
    Cobs.ReachBound(Parsed(st));
    if Parsed(st) == [] { Cobs.ReachNothing(); }
  }

  lemma {:induction false} RunThen(c: Config, st: State, x: seq<Action>, mid: State, y: seq<Action>)
    requires c.page > 0 && c.sector > 0 && Run(c, st, x) == Some(mid)
    ensures Run(c, st, x + y) == Run(c, mid, y)
    decreases |x|
  {
    hide Do;
    if x == [] {
      assert x + y == y;
    } else {
      assert (x + y)[0] == x[0] && (x + y)[1..] == x[1..] + y;
      RunThen(c, Do(c, st, x[0]).value, x[1..], mid, y);
    }
  }

  lemma RunMore(c: Config, st: State, x: seq<Action>, mid: State, act: Action)
    requires c.page > 0 && c.sector > 0 && Run(c, st, x) == Some(mid)
    ensures Run(c, st, x + [act]) == Do(c, mid, act)
  {
    hide Do;
    RunThen(c, st, x, mid, [act]);
    assert [act][1..] == [];
  }

  /** 64 KiB of zeros for the first sector of an erased NOR chip. */
  ghost function ZerosConfig(): (c: Config)
    ensures c.Valid() && c.Accepted() && c.image == Fill(0x10000, 0) && c.sector == 0x10000 && c.addr == 0
  {
    var c := Config(0, Fill(0x10000, 0), 0x10000, 256, Fill(0x10000, 255), SoftRing.RING_SIZE, []);
    SameBitmap(c, c.Bitmap(), c.Sectors());
    c.(bitmap := c.Bitmap())
  }

  lemma ZerosGeometry(c: Config)
    requires c.Valid() && c.image == Fill(0x10000, 0) && c.sector == 0x10000
    ensures c.Sectors() == 1 && |c.Data(0)| == 0x10000 && c.Flagged(0) && c.Packets(0) == 128
    ensures forall k :: 0 <= k < 3 ==> |c.ChunkAt(0, k)| == CHUNK
  {
    hide Config.Bitmap, Bit;
    assert c.Sectors() == 1 && c.Lo(0) == 0 && c.Hi(0) == 0x10000;
    assert c.Data(0)[0] == 0;
    BitmapExact(c, 0);
  }

  /** Each byte on the wire arrives as 1, and the agent takes it at once. */
  lemma {:induction false} TakesOnes(c: Config, st: State, n: nat) returns (acts: seq<Action>, end: State)
    requires c.Valid() && Waits(c, st) && st.agent.frame == Fill(|st.agent.frame|, 1)
    requires |st.agent.frame| + n < RX_FRAME && n <= |st.wire|
    ensures Run(c, st, acts) == Some(end)
    ensures end == st.(wire := st.wire[n..], agent := st.agent.(frame := Fill(|st.agent.frame| + n, 1)))
    decreases n
  {
    hide Run, Config.Data, Config.Bitmap, Deliver;
    acts, end := [], st;
    assert Run(c, st, []) == Some(st) by { NoActs(c, st); }
    if n > 0 {
      var st1 := st.(wire := st.wire[1..], ring := [1]);
      var st2 := st1.(ring := [], agent := st.agent.(frame := Fill(|st.agent.frame| + 1, 1)));
      OneByte(c, st, st1, st2);
      RunMore(c, st, [], st, Garble(1));
      RunMore(c, st, [] + [Garble(1)], st1, AgentStep);
      var rest;
      rest, end := TakesOnes(c, st2, n - 1);
      acts := [] + [Garble(1)] + [AgentStep];
      RunThen(c, st, acts, st2, rest);
      acts := acts + rest;
      assert st.wire[1..][n - 1..] == st.wire[n..];
    }
  }

  lemma NoActs(c: Config, st: State)
    requires c.page > 0 && c.sector > 0
    ensures Run(c, st, []) == Some(st)
  {
  }

  lemma OneByte(c: Config, st: State, st1: State, st2: State)
    requires c.Valid() && Waits(c, st) && st.wire != [] && |st.agent.frame| + 1 < RX_FRAME
    requires st.agent.frame == Fill(|st.agent.frame|, 1) && st1 == st.(wire := st.wire[1..], ring := [1])
    requires st2 == st1.(ring := [], agent := st.agent.(frame := Fill(|st.agent.frame| + 1, 1)))
    ensures Do(c, st, Garble(1)) == Some(st1) && Do(c, st1, AgentStep) == Some(st2)
  {
    hide Config.Data, Config.Bitmap, Deliver;
    assert Into([], 1, c.ring) == [1];
    assert [1][1..] == [];
    assert st.agent.frame + [1] == Fill(|st.agent.frame| + 1, 1);
  }

  /** The agent receives the first sector, and the host has sent three packets of it. */
  lemma ThreeSent(c: Config, st0: State) returns (acts: seq<Action>, st: State)
    requires c.Valid() && c.Accepted() && c.image == Fill(0x10000, 0) && c.sector == 0x10000 && Init(c, st0)
    ensures Run(c, st0, acts) == Some(st) && Waits(c, st) && st.agent.frame == [] && |st.wire| >= RX_FRAME
  {
    ZerosGeometry(c);
    hide Run, Config.Sectors, Config.Data, Config.Flagged, Config.Packets, Config.Bitmap, Config.Frames, Init, Flush;
    NoActs(c, st0);
    acts := [];
    assert st0.agent.pc == Check && st0.agent.frame == [] && st0.wire == [] && st0.ring == [] && st0.replies == []
        && st0.host == Host(WaitAck, 0, 0) by { AtStart(c, st0); }
    var s1 := Do(c, st0, AgentStep).value;
    RunMore(c, st0, acts, st0, AgentStep);
    var s2 := Do(c, s1, AgentStep).value;
    RunMore(c, st0, acts + [AgentStep], s1, AgentStep);
    var s3 := Do(c, s2, HostStep).value;
    RunMore(c, st0, acts + [AgentStep] + [AgentStep], s2, HostStep);
    acts := acts + [AgentStep] + [AgentStep] + [HostStep];
    assert s3.host == Host(Send, 0, 0) && Waits(c, s3);
    var more;
    more, st := SendsThree(c, s3);
    RunThen(c, st0, acts, s3, more);
    acts := acts + more;
  }

  lemma AtStart(c: Config, st: State)
    requires Init(c, st)
    ensures st.agent.pc == Check && st.agent.frame == [] && st.wire == [] && st.ring == [] && st.replies == []
    ensures st.host == Host(WaitAck, 0, 0)
  {
  }

  lemma SendsThree(c: Config, st: State) returns (acts: seq<Action>, end: State)
    requires c.Valid() && st.host == Host(Send, 0, 0) && c.Packets(0) == 128 && Waits(c, st)
    requires forall k :: 0 <= k < 3 ==> |c.ChunkAt(0, k)| == CHUNK
    ensures Run(c, st, acts) == Some(end) && end.agent == st.agent && end.ring == st.ring && |end.wire| >= RX_FRAME
  {
    hide Run, Config.Data, Config.Packets, Config.Bitmap, Config.DataPacket;
    NoActs(c, st);
    var s1 := Do(c, st, HostStep).value;
    var s2 := Do(c, s1, HostStep).value;
    var s3 := Do(c, s2, HostStep).value;
    RunMore(c, st, [], st, HostStep);
    RunMore(c, st, [] + [HostStep], s1, HostStep);
    RunMore(c, st, [] + [HostStep] + [HostStep], s2, HostStep);
    LongFrame(c, 0);
    LongFrame(c, 1);
    LongFrame(c, 2);
    acts, end := [] + [HostStep] + [HostStep] + [HostStep], s3;
  }

  lemma LongFrame(c: Config, k: nat)
    requires |c.ChunkAt(0, k)| == CHUNK
    ensures |c.Frames(0)(k)| >= 520
  {
    hide Config.ChunkAt, Frame;
    FrameShape(c.DataPacket(0, k));
  }

  /** A run to the overrun: three packets whose bytes all arrive as 1. The 1056 bytes that
      fill the frame buffer decode to 1055, 15 more than the decode buffer holds. */
  lemma OverrunReached() returns (c: Config, st: State)
    ensures c.Valid() && Reachable(c, st) && Overruns(c, st)
    ensures Parsed(st) == Fill(1056, 1) && Cobs.Decode(Parsed(st)) == Cobs.Bytes(Fill(1055, 0))
  {
    hide Run, Config.Bitmap, Config.Data, Config.Sectors, ZerosConfig, Cobs.Reach, Cobs.Decode;
    c := ZerosConfig();
    var st0 := State(Host(WaitAck, 0, 0), Agent(Check, 0, 0, 0, -1, 0, 0, Fill(2 * SPACING, 0), []),
                     [], [], [], [], c.cells);
    var acts, mid := ThreeSent(c, st0);
    assert mid.agent.frame == Fill(0, 1);
    var more, full := TakesOnes(c, mid, RX_FRAME - 1);
    RunThen(c, st0, acts, mid, more);
    st := full.(wire := full.wire[1..], ring := [1]);
    assert Into([], 1, c.ring) == [1];
    RunMore(c, st0, acts + more, full, Garble(1));
    assert Run(c, st0, acts + more + [Garble(1)]) == Some(st);
    assert full.agent.frame + [1] == Fill(1056, 1);
    Cobs.Ones(1056);
  }
}
