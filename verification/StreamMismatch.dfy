/** The host cuts the image by the sector size it was told, the agent by its own. Nothing
    in the protocol compares the two. */
module StreamMismatch {
  import opened Bits
  import opened Framing
  import opened Nor
  import opened Options
  import opened StreamModel
  import opened StreamInvariant
  import SoftRing

  lemma {:induction false} RunThen(h: Config, a: Config, st: State, x: seq<Action>, mid: State, y: seq<Action>)
    requires h.sector > 0 && a.page > 0 && a.sector > 0 && RunBoth(h, a, st, x) == Some(mid)
    ensures RunBoth(h, a, st, x + y) == RunBoth(h, a, mid, y)
    decreases |x|
  {
    hide DoBoth;
    if x == [] {
      assert x + y == y;
    } else {
      assert (x + y)[0] == x[0] && (x + y)[1..] == x[1..] + y;
      RunThen(h, a, DoBoth(h, a, st, x[0]).value, x[1..], mid, y);
    }
  }

  lemma RunOne(h: Config, a: Config, st: State, act: Action)
    requires h.sector > 0 && a.page > 0 && a.sector > 0
    ensures RunBoth(h, a, st, [act]) == DoBoth(h, a, st, act)
  {
    hide DoBoth;
    assert [act][1..] == [];
  }

  /** Everything but the host's position and the wire is as it was. */
  ghost predicate OnlyHost(st: State, st': State)
  {
    st'.agent == st.agent && st'.replies == st.replies && st'.cells == st.cells && st'.ring == st.ring
  }

  /** The host sends a sector and then waits, whatever the agent does. */
  lemma {:induction false} SendsSector(h: Config, a: Config, st: State) returns (acts: seq<Action>, end: State)
    requires h.sector > 0 && a.page > 0 && a.sector > 0 && st.host.pc == Send && st.host.k <= h.Packets(st.host.s)
    ensures RunBoth(h, a, st, acts) == Some(end) && OnlyHost(st, end)
    ensures end.host.pc == WaitProgress && end.host.s == st.host.s
    decreases h.Packets(st.host.s) - st.host.k
  {
    hide Config.Packets, Config.Frames, RunBoth;
    var mid := DoBoth(h, a, st, HostStep).value;
    RunOne(h, a, st, HostStep);
    if st.host.k < h.Packets(st.host.s) {
      acts, end := SendsSector(h, a, mid);
      RunThen(h, a, st, [HostStep], mid, acts);
      acts := [HostStep] + acts;
    } else {
      acts, end := [HostStep], mid;
    }
  }

  /** The host reads one reply. */
  lemma ReadsReply(h: Config, a: Config, st: State, x: seq<Action>, st0: State)
    requires h.sector > 0 && a.page > 0 && a.sector > 0 && RunBoth(h, a, st0, x) == Some(st)
    requires st.replies != [] && (st.host.pc == WaitAck || st.host.pc == WaitProgress)
    ensures HostDo(h, st).Some? && RunBoth(h, a, st0, x + [HostStep]) == Some(HostDo(h, st).value)
    ensures OnlyHost(st.(replies := st.replies[1..]), HostDo(h, st).value)
  {
    hide RunBoth, HostAt;
    RunOne(h, a, st, HostStep);
    RunThen(h, a, st0, x, st, [HostStep]);
  }

  /** A host that takes the first reply for the start, the second for its first sector and
      the third for its second sector ends in success. */
  lemma HostSatisfied(h: Config, a: Config, st0: State, x: seq<Action>, st: State, p: Reply)
    returns (acts: seq<Action>, end: State)
    requires h.sector > 0 && a.page > 0 && a.sector > 0 && h.Sectors() == 2 && p.Progress?
    requires RunBoth(h, a, st0, x) == Some(st) && st.host == Host(WaitAck, 0, 0)
    requires st.replies == [Ack(ACK_OK), p, Ack(ACK_OK)]
    ensures RunBoth(h, a, st0, acts) == Some(end) && end.host.pc == Finished(true) && end.cells == st.cells
  {
    hide RunBoth, Config.Sectors, Config.Packets;
    ReadsReply(h, a, st, x, st0);
    var s1, y1 := HostDo(h, st).value, x + [HostStep];
    var z, s2 := SendsSector(h, a, s1);
    RunThen(h, a, st0, y1, s1, z);
    ReadsReply(h, a, s2, y1 + z, st0);
    var s3, y3 := HostDo(h, s2).value, y1 + z + [HostStep];
    var w, s4 := SendsSector(h, a, s3);
    RunThen(h, a, st0, y3, s3, w);
    ReadsReply(h, a, s4, y3 + w, st0);
    acts, end := y3 + w + [HostStep], HostDo(h, s4).value;
  }

  /** An agent with one sector, marked empty: it erases, reports and is done. */
  lemma AgentSkips(h: Config, a: Config, st: State) returns (acts: seq<Action>, end: State)
    requires h.sector > 0 && a.page > 0 && a.sector > 0 && a.Accepted() && a.Sectors() == 1 && !a.Flagged(0)
    requires a.addr + a.sector <= |st.cells|
    requires st.agent.pc == Check && st.replies == [] && st.host == Host(WaitAck, 0, 0)
    ensures RunBoth(h, a, st, acts) == Some(end) && end.host == st.host
    ensures end.replies == [Ack(ACK_OK), ProgressOf(a, 0), Ack(ACK_OK)]
    ensures end.cells == Splice(st.cells, a.addr, Fill(a.sector, 255))
  {
    hide Config.Sectors, Config.Flagged, ProgressOf, Splice, RunBoth;
    var s1 := DoBoth(h, a, st, AgentStep).value;
    var s2 := DoBoth(h, a, s1, AgentStep).value;
    var s3 := DoBoth(h, a, s2, AgentStep).value;
    var s4 := DoBoth(h, a, s3, AgentStep).value;
    var s5 := DoBoth(h, a, s4, AgentStep).value;
    RunOne(h, a, st, AgentStep);
    RunOne(h, a, s1, AgentStep);
    RunOne(h, a, s2, AgentStep);
    RunOne(h, a, s3, AgentStep);
    RunOne(h, a, s4, AgentStep);
    var x := [AgentStep];
    RunThen(h, a, st, x, s1, x);
    RunThen(h, a, st, x + x, s2, x);
    RunThen(h, a, st, x + x + x, s3, x);
    RunThen(h, a, st, x + x + x + x, s4, x);
    acts, end := x + x + x + x + x, s5;
  }

  /** 128 KiB whose first half is 0xFF and whose second half is not, on a chip with 128 KiB
      sectors: a host that assumes 64 KiB sectors, as it does before it has asked the agent,
      reports success, and the flash is left erased. */
  lemma SectorSizesMustAgree(image: seq<Byte>, cells: seq<Byte>)
    returns (h: Config, a: Config, st0: State, acts: seq<Action>, st: State)
    requires |image| == 0x20000 && AllFf(image[..0x10000]) && !AllFf(image[0x10000..])
    requires |cells| % 0x20000 == 0 && |cells| >= 0x20000
    ensures h.image == image && h.Valid() && h.sector == 0x10000 && a == h.(sector := 0x20000) && a.Accepted()
    ensures Init(h, st0) && RunBoth(h, a, st0, acts) == Some(st) && st.host.pc == Finished(true)
    ensures |st.cells| == |cells| && AllFf(st.cells[..0x20000]) && st.cells[..0x20000] != image
  {
    h := MismatchConfig(image, cells);
    a := h.(sector := 0x20000);
    Geometry(h, a);
    hide Config.Bitmap, AllFf, Splice, RunBoth, Config.Sectors, Config.Flagged;
    st0 := State(Host(WaitAck, 0, 0), Agent(Check, 0, 0, 0, -1, 0, 0, Fill(2 * SPACING, 0), []), [], [], [], [], cells);
    var x, mid := AgentSkips(h, a, st0);
    acts, st := HostSatisfied(h, a, st0, x, mid, ProgressOf(a, 0));
    Erased(cells, image);
  }

  lemma Erased(cells: seq<Byte>, image: seq<Byte>)
    requires |image| == 0x20000 <= |cells| && !AllFf(image[0x10000..])
    ensures var now := Splice(cells, 0, Fill(0x20000, 255));
            AllFf(now[..0x20000]) && now[..0x20000] != image
  {
    var now := Splice(cells, 0, Fill(0x20000, 255));
    var i :| 0 <= i < |image[0x10000..]| && image[0x10000..][i] != 255;
    assert image[0x10000 + i] != 255 && now[..0x20000][0x10000 + i] == 255;
  }

  lemma Geometry(h: Config, a: Config)
    requires h.Valid() && |h.image| == 0x20000 && h.sector == 0x10000 && a == h.(sector := 0x20000) && h.addr == 0
    requires AllFf(h.image[..0x10000]) && |h.cells| >= 0x20000
    ensures h.Sectors() == 2 && a.Sectors() == 1 && a.Accepted() && !a.Flagged(0)
  {
    hide Config.Bitmap, AllFf, Bit;
    assert h.Sectors() == 2 && a.Sectors() == 1;
    assert h.Data(0) == h.image[..0x10000];
    BitmapExact(h, 0);
    assert |h.bitmap| == 1 by { BitmapSize(h); }
  }

  lemma BitmapSize(h: Config)
    requires h.sector > 0 && h.bitmap == h.Bitmap()
    ensures |h.bitmap| == (h.Sectors() + 7) / 8
  {
  }

  ghost function MismatchConfig(image: seq<Byte>, cells: seq<Byte>): (h: Config)
    requires |image| == 0x20000 && |cells| % 0x20000 == 0
    ensures h.Valid() && h.image == image && h.cells == cells && h.sector == 0x10000 && h.addr == 0
  {
    var c := Config(0, image, 0x10000, 2048, cells, SoftRing.RING_SIZE, []);
    SameBitmap(c, c.Bitmap(), c.Sectors());
    Halves(|cells|);
    c.(bitmap := c.Bitmap())
  }

  lemma Halves(n: nat)
    requires n % 0x20000 == 0
    ensures n % 0x10000 == 0
  {
    DivModBy(n, 0x10000, 2 * (n / 0x20000), 0);
  }
}
