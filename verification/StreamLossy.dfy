/** Flash streaming over a wire that loses and damages bytes and loses replies, with framing
    errors, and into a ring of any size. Every byte in flight is traced to its place among
    the bytes the host sent, so that a frame the agent delivers is either one the host sent,
    whole and undamaged, or not. */
module StreamLossy {
  import opened Bits
  import opened Framing
  import opened Options
  import opened Nor
  import opened Tiling
  import opened StreamModel
  import opened StreamInvariant
  import opened StreamSteps
  import opened StreamAgent
  import opened StreamLocal
  import Cobs

  // ---- Places ------------------------------------------------------------------------

  /** Where packet k of sector s starts among the host's bytes for that sector. */
  ghost function Pos(c: Config, s: nat, k: nat): nat
  {
    |c.WireOf(s, 0, k)|
  }

  lemma PosNext(c: Config, s: nat, k: nat)
    ensures Pos(c, s, k + 1) == Pos(c, s, k) + |c.Frames(s)(k)| && |c.Frames(s)(k)| > 0
  {
    GlueSnoc(c.Frames(s), 0, k);
    FrameShape(c.DataPacket(s, k));
  }

  lemma {:induction false} PosMono(c: Config, s: nat, i: nat, j: nat)
    requires i <= j
    ensures Pos(c, s, i) <= Pos(c, s, j) && (i < j ==> Pos(c, s, i) < Pos(c, s, j))
    decreases j
  {
    hide Pos, Config.Frames;
    if i < j {
      PosNext(c, s, j - 1);
      PosMono(c, s, i, j - 1);
    }
  }

  ghost function Range(lo: nat, hi: nat): (r: seq<nat>)
    requires lo <= hi
    ensures |r| == hi - lo && forall i :: 0 <= i < |r| ==> r[i] == lo + i
  {
    seq(hi - lo, i requires 0 <= i => lo + i)
  }

  ghost predicate Rising(tags: seq<nat>, lo: nat, hi: nat)
  {
    && (tags == [] || lo < hi) && (forall i :: 0 <= i < |tags| ==> lo <= tags[i] < hi)
    && (forall i, j :: 0 <= i < j < |tags| ==> tags[i] < tags[j])
  }

  ghost function Cut(tags: seq<nat>, i: nat): seq<nat>
  {
    if i < |tags| then tags[..i] + tags[i + 1..] else tags
  }

  lemma RisingCut(tags: seq<nat>, i: nat, lo: nat, hi: nat)
    requires Rising(tags, lo, hi)
    ensures Rising(Cut(tags, i), lo, hi)
  {
  }

  lemma RisingTail(tags: seq<nat>, n: nat, lo: nat, hi: nat)
    requires Rising(tags, lo, hi) && n <= |tags|
    ensures Rising(tags[n..], lo, hi) && (n > 0 ==> Rising(tags[n..], tags[n - 1] + 1, hi))
  {
    if 0 < n < |tags| { assert tags[n - 1] < tags[n] < hi; }
  }

  lemma RisingNone(tags: seq<nat>, lo: nat, hi: nat)
    requires Rising(tags, lo, hi) && hi <= lo
    ensures tags == []
  {
  }

  lemma RisingMore(tags: seq<nat>, lo: nat, mid: nat, hi: nat)
    requires Rising(tags, lo, mid) && lo <= mid <= hi
    ensures Rising(tags + Range(mid, hi), lo, hi)
  {
  }

  // ---- Traced runs ---------------------------------------------------------------------

  /** `tags` gives, for each byte in flight, its place among the host's bytes for its
      current sector; packets before `next` are taken or lost. */
  datatype Traced = Traced(st: State, tags: seq<nat>, next: nat)

  /** The frame about to be delivered is packet k of the host's sector, every byte of it
      in its place and as it was sent; any zero byte can have closed it. */
  ghost predicate Genuine(c: Config, t: Traced, k: nat)
  {
    var f, at := t.st.agent.frame, Pos(c, t.st.host.s, k);
    && t.st.ring != [] && t.st.ring[0] == 0 && k < t.st.host.k
    && f + [0] == c.Frames(t.st.host.s)(k) && |f| + 1 <= |t.tags|
    && t.tags[..|f|] == Range(at, at + |f|)
  }

  /** A stretch of bytes that is not a packet the host sent passes its CRC-32. */
  ghost predicate Deceived(c: Config, t: Traced)
  {
    EndsFrame(c, t.st) && Parsed(t.st) != [] && Parse(Parsed(t.st)).Some? && !exists k :: Genuine(c, t, k)
  }

  ghost function TagsAfter(c: Config, t: Traced, act: Action): seq<nat>
    requires c.sector > 0
  {
    var h, a := t.st.host, t.st.agent;
    var last := |a.frame| + |t.st.ring|;
    match act
    case HostStep =>
      if h.pc == Send && h.k < c.Packets(h.s) && Pos(c, h.s, h.k) <= Pos(c, h.s, h.k + 1)
      then t.tags + Range(Pos(c, h.s, h.k), Pos(c, h.s, h.k + 1)) else t.tags
    case AgentStep => if EndsFrame(c, t.st) && |a.frame| + 1 <= |t.tags| then t.tags[|a.frame| + 1..] else t.tags
    case Lose => Cut(t.tags, last)
    case Break => if |a.frame| + 1 <= |t.tags| then t.tags[|a.frame| + 1..] else t.tags
    case Arrive => if |t.st.ring| + 1 < c.ring then t.tags else Cut(t.tags, last)
    case Garble(_) => if |t.st.ring| + 1 < c.ring then t.tags else Cut(t.tags, last)
    case _ => t.tags
  }

  ghost function PacketOf(c: Config, t: Traced): (k: nat)
    requires exists k :: Genuine(c, t, k)
    ensures Genuine(c, t, k)
  {
    var k :| Genuine(c, t, k);
    k
  }

  ghost function NextAfter(c: Config, t: Traced, act: Action): nat
  {
    if act != AgentStep then t.next
    else if t.st.agent.pc == Top then 0
    else if EndsFrame(c, t.st) && (exists k :: Genuine(c, t, k)) then PacketOf(c, t) + 1
    else t.next
  }

  ghost function Trace(c: Config, t: Traced, act: Action): Traced
    requires c.page > 0 && c.sector > 0 && Do(c, t.st, act).Some?
  {
    Traced(Do(c, t.st, act).value, TagsAfter(c, t, act), NextAfter(c, t, act))
  }

  /** No step of the run is deceived by a damaged stretch. */
  ghost predicate Undeceived(c: Config, t: Traced, acts: seq<Action>)
    requires c.page > 0 && c.sector > 0
    decreases |acts|
  {
    acts == [] || !Do(c, t.st, acts[0]).Some? ||
    (!(acts[0] == AgentStep && Deceived(c, t)) && Undeceived(c, Trace(c, t, acts[0]), acts[1..]))
  }

  // ---- The invariant ------------------------------------------------------------------

  /** Bytes in the first n packets of a sector. */
  function Avail(c: Config, s: nat, n: nat): nat
  {
    Upto(|c.Data(s)|, CHUNK, n)
  }

  /** What is in flight comes from packets of the host's current sector that the agent has
      not gone past. */
  ghost predicate Coming(c: Config, h: Host, a: Agent, tags: seq<nat>, next: nat)
    requires c.sector > 0
  {
    a.pc.Stopped? ||
    if a.pc == Recv && a.s == h.s then
      next <= h.k && Rising(tags, Pos(c, h.s, next), Pos(c, h.s, h.k))
    else
      && a.frame == [] && (a.pc == Recv ==> a.got == 0 && next == 0)
      && if Reported(a) > h.s || (a.pc == Report && a.s == h.s)
         then tags == [] && h.k == c.Packets(h.s)
         else Rising(tags, 0, Pos(c, h.s, h.k))
  }

  /** The agent never has more than the packets it went past carry, and if it has all of
      that, it has the right bytes. */
  ghost predicate Filled(c: Config, a: Agent, next: nat)
    requires c.sector > 0
  {
    && (a.pc == Recv || a.pc == Report || a.pc == Program ==>
          a.got <= |c.Data(a.s)| && a.rx * SPACING + a.got <= |a.ram|)
    && (a.pc == Recv ==>
          && a.got <= Avail(c, a.s, next)
          && (a.got == Avail(c, a.s, next) ==>
                a.ram[a.rx * SPACING..a.rx * SPACING + a.got] == c.Data(a.s)[..a.got]))
    && (a.pc == Report || a.pc == Program ==>
          a.got == |c.Data(a.s)| && a.ram[a.rx * SPACING..a.rx * SPACING + a.got] == c.Data(a.s))
  }

  ghost predicate Going(c: Config, t: Traced)
    requires c.Valid() && c.Accepted()
  {
    var st := t.st;
    && st.agent.pc != Check
    && Heard(st.host, st.agent, st.replies) && HostOk(c, st.host, st.agent)
    && AgentOk(c, st.agent) && PendingHolds(c, st.agent) && CellsOk(c, st.agent, st.cells)
    && Coming(c, st.host, st.agent, t.tags, t.next) && Filled(c, st.agent, t.next)
    && (!st.agent.pc.Stopped? ==> |t.tags| == |Flight(st)|)
  }

  /** Nothing has begun, or the command was refused; the host may not have heard of it. */
  ghost predicate Idle(c: Config, st: State)
  {
    Quiet(c, st) || (st.replies == [] && Quiet(c, st.(replies := [Ack(ACK_FLASH_ERROR)])))
  }

  ghost predicate Still(c: Config, t: Traced)
  {
    t.tags == [] && Idle(c, t.st)
  }

  ghost predicate Holds(c: Config, t: Traced)
    requires c.Valid()
  {
    Still(c, t) || (c.Accepted() && Going(c, t))
  }

  // ---- The replies the host may still hear -------------------------------------------------

  /** A reply behind the start ACK: a progress packet, or the agent's last word. */
  predicate Later(a: Agent, r: Reply)
  {
    r.Progress? || (a.pc.Stopped? && r == Ack(if a.pc.ok then ACK_OK else ACK_FLASH_ERROR))
  }

  function Progresses(replies: seq<Reply>): nat
  {
    if replies == [] then 0 else (if replies[0].Progress? then 1 else 0) + Progresses(replies[1..])
  }

  lemma {:induction false} ProgressesAppend(x: seq<Reply>, y: seq<Reply>)
    ensures Progresses(x + y) == Progresses(x) + Progresses(y)
    decreases |x|
  {
    if x == [] {
      assert x + y == y;
    } else {
      assert (x + y)[1..] == x[1..] + y;
      ProgressesAppend(x[1..], y);
    }
  }

  /** Every unread reply is one the agent sent, and no more progress is left to hear of than
      the agent has made beyond the host. */
  ghost predicate Heard(h: Host, a: Agent, replies: seq<Reply>)
  {
    h.pc.Finished? ||
    (&& h.s + Progresses(replies) <= Reported(a)
     && forall i :: 0 <= i < |replies| && (i > 0 || h.pc != WaitAck) ==> Later(a, replies[i]))
  }

  lemma HeardLess(h: Host, a: Agent, replies: seq<Reply>, i: nat)
    requires Heard(h, a, replies) && i < |replies|
    ensures Heard(h, a, replies[..i] + replies[i + 1..])
  {
    hide Later;
    ProgressesAppend(replies[..i], replies[i..]);
    ProgressesAppend(replies[..i], replies[i + 1..]);
    assert replies == replies[..i] + replies[i..] && replies[i..][1..] == replies[i + 1..];
  }

  /** The host reads a reply and goes on. */
  lemma HeardRead(h: Host, h': Host, a: Agent, replies: seq<Reply>)
    requires Heard(h, a, replies) && replies != [] && !h.pc.Finished? && h'.pc != WaitAck
    requires h'.s == h.s || (replies[0].Progress? && h'.s == h.s + 1)
    ensures Heard(h', a, replies[1..])
  {
    hide Later;
  }

  /** The host goes on by itself. */
  lemma HeardHost(h: Host, h': Host, a: Agent, replies: seq<Reply>)
    requires Heard(h, a, replies) && !h.pc.Finished? && h'.s == h.s && h.pc != WaitAck
    ensures Heard(h', a, replies)
  {
    hide Later;
  }

  lemma HeardQuiet(h: Host, a: Agent, a': Agent, replies: seq<Reply>)
    requires Heard(h, a, replies) && !a.pc.Stopped? && Reported(a) <= Reported(a')
    ensures Heard(h, a', replies)
  {
  }

  lemma HeardMore(h: Host, a: Agent, a': Agent, replies: seq<Reply>, r: Reply)
    requires Heard(h, a, replies) && !a.pc.Stopped? && Later(a', r)
    requires Reported(a) + (if r.Progress? then 1 else 0) <= Reported(a')
    ensures Heard(h, a', replies + [r])
  {
    ProgressesAppend(replies, [r]);
    assert [r][1..] == [];
  }

  /** What the host finds in front of the reply queue. */
  lemma FrontReply(c: Config, h: Host, a: Agent, replies: seq<Reply>)
    requires c.sector > 0 && Heard(h, a, replies) && HostOk(c, h, a) && !h.pc.Finished? && replies != []
    ensures h.pc == WaitAck ==> h.s == 0
    ensures replies[0].Progress? ==> h.s < Reported(a) && h.pc != WaitFinal
    ensures replies[0].Ack? && h.pc != WaitAck ==>
              a.pc.Stopped? && replies[0].status == if a.pc.ok then ACK_OK else ACK_FLASH_ERROR
  {
  }

  // ---- Host steps ------------------------------------------------------------------------

  lemma ComingSend(c: Config, h: Host, a: Agent, tags: seq<nat>, next: nat)
    requires c.Valid() && HostOk(c, h, a) && Coming(c, h, a, tags, next) && h.pc == Send && h.k < c.Packets(h.s)
    ensures Pos(c, h.s, h.k) <= Pos(c, h.s, h.k + 1)
    ensures HostOk(c, h.(k := h.k + 1), a)
    ensures Coming(c, h.(k := h.k + 1), a, tags + Range(Pos(c, h.s, h.k), Pos(c, h.s, h.k + 1)), next)
  {
    hide Pos, Config.Frames, Config.Packets, Config.Sectors, Config.Bitmap, Rising;
    PosNext(c, h.s, h.k);
    if a.pc == Recv && a.s == h.s && next <= h.k {
      PosMono(c, h.s, next, h.k);
      RisingMore(tags, Pos(c, h.s, next), Pos(c, h.s, h.k), Pos(c, h.s, h.k + 1));
    } else if Rising(tags, 0, Pos(c, h.s, h.k)) {
      RisingMore(tags, 0, Pos(c, h.s, h.k), Pos(c, h.s, h.k + 1));
    }
  }

  lemma TracedSends(c: Config, t: Traced)
    requires c.Valid() && c.Accepted() && Going(c, t)
    requires t.st.host.pc == Send && t.st.host.k < c.Packets(t.st.host.s)
    ensures Going(c, Trace(c, t, HostStep))
  {
    hide Heard, HostOk, AgentOk, PendingHolds, CellsOk, Coming, Filled, Config.Frames, Config.Packets, Config.Bitmap,
      Pos, Config.Data;
    var h, a := t.st.host, t.st.agent;
    ComingSend(c, h, a, t.tags, t.next);
    PosNext(c, h.s, h.k);
    HeardHost(h, h.(k := h.k + 1), a, t.st.replies);
  }

  /** Only the host's control point changes. */
  lemma ComingPcOnly(c: Config, h: Host, h': Host, a: Agent, tags: seq<nat>, next: nat)
    requires c.Valid() && HostOk(c, h, a) && Coming(c, h, a, tags, next)
    requires h'.s == h.s && h'.k == h.k
    requires h'.pc == WaitProgress ==> h.pc == Send && h.k >= c.Packets(h.s)
    requires h'.pc == Finished(true) ==> a.pc == Stopped(true, c.Sectors())
    requires h'.pc == WaitProgress || h'.pc.Finished?
    ensures HostOk(c, h', a) && Coming(c, h', a, tags, next)
  {
    hide Pos, Rising, Config.Packets, Config.Sectors, Config.Bitmap;
  }

  lemma ComingEnters(c: Config, h: Host, a: Agent, tags: seq<nat>, next: nat)
    requires c.Valid() && c.Accepted() && HostOk(c, h, a) && Coming(c, h, a, tags, next) && AgentOk(c, a)
    requires h.pc == WaitAck || (h.pc == WaitProgress && h.s < Reported(a))
    ensures var h' := HostAt(c, if h.pc == WaitAck then 0 else h.s + 1);
            HostOk(c, h', a) && Coming(c, h', a, tags, next)
  {
    hide Config.Bitmap, Config.Packets, Config.Sectors, Config.Flagged, Pos;
    PacketsBound(c, c.Sectors());
    SectorCount(c, 0);
  }

  lemma TracedHost(c: Config, t: Traced)
    requires c.Valid() && c.Accepted() && Going(c, t) && HostDo(c, t.st).Some?
    ensures Going(c, Trace(c, t, HostStep))
  {
    hide Heard, HostOk, AgentOk, PendingHolds, CellsOk, Coming, Filled, Config.Frames, Config.Packets, Config.Bitmap,
      Config.Data;
    var h, a, st := t.st.host, t.st.agent, t.st;
    if h.pc == Send {
      if h.k < c.Packets(h.s) {
        TracedSends(c, t);
      } else {
        ComingPcOnly(c, h, h.(pc := WaitProgress), a, t.tags, t.next);
        HeardHost(h, h.(pc := WaitProgress), a, st.replies);
      }
    } else {
      TracedReads(c, t);
    }
  }

  lemma TracedReads(c: Config, t: Traced)
    requires c.Valid() && c.Accepted() && Going(c, t) && HostDo(c, t.st).Some? && t.st.host.pc != Send
    ensures Going(c, Trace(c, t, HostStep))
  {
    hide Going, HostDo, Heard, HostOk, Coming, Config.Bitmap;
    HostReadsOne(c, t.st);
    var h' := HostDo(c, t.st).value.host;
    ReadKeeps(c, t);
    HostMoves(c, t, h', t.st.replies[1..]);
    HostTrace(c, t);
  }

  lemma HostTrace(c: Config, t: Traced)
    requires c.page > 0 && c.sector > 0 && HostDo(c, t.st).Some? && t.st.host.pc != Send
    ensures Trace(c, t, HostStep) == Traced(HostDo(c, t.st).value, t.tags, t.next)
  {
    hide HostDo;
  }

  lemma HostMoves(c: Config, t: Traced, h': Host, replies: seq<Reply>)
    requires c.Valid() && c.Accepted() && Going(c, t) && Heard(h', t.st.agent, replies)
    requires HostOk(c, h', t.st.agent) && Coming(c, h', t.st.agent, t.tags, t.next)
    ensures Going(c, Traced(t.st.(host := h', replies := replies), t.tags, t.next))
  {
    hide Heard, HostOk, AgentOk, PendingHolds, CellsOk, Coming, Filled, Config.Bitmap;
  }

  lemma ReadKeeps(c: Config, t: Traced)
    requires c.Valid() && c.Accepted() && Going(c, t) && HostDo(c, t.st).Some? && t.st.host.pc != Send
    requires t.st.replies != []
    ensures var h' := HostDo(c, t.st).value.host;
            && Heard(h', t.st.agent, t.st.replies[1..]) && HostOk(c, h', t.st.agent)
            && Coming(c, h', t.st.agent, t.tags, t.next)
  {
    hide Heard, HostOk, AgentOk, PendingHolds, CellsOk, Coming, Filled, Config.Bitmap, Config.Sectors, HostDo;
    var h, a, st := t.st.host, t.st.agent, t.st;
    HostReadsOne(c, st);
    FrontReply(c, h, a, st.replies);
    var h' := HostDo(c, st).value.host;
    if st.replies[0].Ack? && h.pc != WaitAck { LastWordGood(c, a, st.cells); }
    if h'.pc.Finished? {
      ComingPcOnly(c, h, h', a, t.tags, t.next);
      HeardFinished(h', a, st.replies[1..]);
    } else {
      ComingEnters(c, h, a, t.tags, t.next);
      HeardRead(h, h', a, st.replies);
    }
  }

  /** What the host makes of the reply in front. */
  lemma HostReadsOne(c: Config, st: State)
    requires c.sector > 0 && HostDo(c, st).Some? && st.host.pc != Send
    ensures !st.host.pc.Finished? && st.replies != []
    ensures var h, r, st' := st.host, st.replies[0], HostDo(c, st).value;
            && st' == st.(host := st'.host, replies := st.replies[1..])
            && (h.pc != WaitAck && r.Ack? ==> st'.host == h.(pc := Finished(r.status == ACK_OK)))
            && (h.pc == WaitProgress && r.Progress? ==> st'.host == HostAt(c, h.s + 1))
            && (h.pc == WaitAck ==> st'.host == h.(pc := Finished(false)) || (r.Ack? && st'.host == HostAt(c, 0)))
  {
    hide Config.Sectors, HostAt;
  }

  lemma HeardFinished(h: Host, a: Agent, replies: seq<Reply>)
    requires h.pc.Finished?
    ensures Heard(h, a, replies)
  {
  }

  lemma LastWordGood(c: Config, a: Agent, cells: seq<Byte>)
    requires c.Valid() && c.Accepted() && CellsOk(c, a, cells) && a.pc.Stopped?
    ensures a.pc.ok ==> a.pc == Stopped(true, c.Sectors())
  {
  }

  lemma TracedHostTimeout(c: Config, t: Traced)
    requires c.Valid() && c.Accepted() && Going(c, t) && Do(c, t.st, HostTimeout).Some?
    ensures Going(c, Trace(c, t, HostTimeout))
  {
    hide Heard, HostOk, AgentOk, PendingHolds, CellsOk, Coming, Filled, Config.Bitmap;
    var h' := t.st.host.(pc := Finished(false));
    ComingPcOnly(c, t.st.host, h', t.st.agent, t.tags, t.next);
    HeardFinished(h', t.st.agent, t.st.replies);
  }

  // ---- The wire ----------------------------------------------------------------------------

  lemma ComingCut(c: Config, h: Host, a: Agent, tags: seq<nat>, next: nat, i: nat)
    requires c.sector > 0 && Coming(c, h, a, tags, next)
    ensures Coming(c, h, a, Cut(tags, i), next)
  {
    hide Pos, Rising, Config.Packets;
    if a.pc == Recv && a.s == h.s && !a.pc.Stopped? {
      RisingCut(tags, i, Pos(c, h.s, next), Pos(c, h.s, h.k));
    } else if Rising(tags, 0, Pos(c, h.s, h.k)) {
      RisingCut(tags, i, 0, Pos(c, h.s, h.k));
    }
  }

  /** A byte arrives, arrives damaged, is dropped by a full ring, or is lost. */
  lemma TracedWire(c: Config, t: Traced, act: Action)
    requires c.Valid() && c.Accepted() && Going(c, t) && Do(c, t.st, act).Some?
    requires act == Arrive || act == Lose || act.Garble?
    ensures Going(c, Trace(c, t, act))
  {
    hide Heard, HostOk, AgentOk, PendingHolds, CellsOk, Coming, Filled, Config.Bitmap;
    ComingCut(c, t.st.host, t.st.agent, t.tags, t.next, |t.st.agent.frame| + |t.st.ring|);
  }

  /** A framing error: the byte is lost, and the partial frame with it. */
  lemma TracedBreak(c: Config, t: Traced)
    requires c.Valid() && c.Accepted() && Going(c, t) && Do(c, t.st, Break).Some?
    ensures Going(c, Trace(c, t, Break))
  {
    hide Heard, HostOk, AgentOk, PendingHolds, CellsOk, Coming, Filled, Config.Bitmap, Config.Data;
    var a := t.st.agent;
    var a' := a.(frame := []);
    ReceivingHere(c, t);
    ComingTail(c, t.st.host, a, t.tags, t.next, |a.frame| + 1);
    SameAgent(c, t.st.host, a, a', t.tags[|a.frame| + 1..], t.next, t.st.cells);
    HeardQuiet(t.st.host, a, a', t.st.replies);
  }

  /** Without its partial frame the agent is as good as before. */
  lemma SameAgent(c: Config, h: Host, a: Agent, a': Agent, tags: seq<nat>, next: nat, cells: seq<Byte>)
    requires c.Valid() && c.Accepted() && HostOk(c, h, a) && AgentOk(c, a) && PendingHolds(c, a) && CellsOk(c, a, cells)
    requires Coming(c, h, a, tags, next) && Filled(c, a, next) && a.pc == Recv && a' == a.(frame := [])
    ensures HostOk(c, h, a') && AgentOk(c, a') && PendingHolds(c, a') && CellsOk(c, a', cells)
    ensures Coming(c, h, a', tags, next) && Filled(c, a', next)
  {
    hide Config.Sectors, Config.Flagged, Config.Data, Config.Packets, Config.Bitmap, SettledAt, Pos, Rising;
  }

  lemma TracedReplyLost(c: Config, t: Traced, i: nat)
    requires c.Valid() && c.Accepted() && Going(c, t) && i < |t.st.replies|
    ensures Going(c, Trace(c, t, LoseReply(i)))
  {
    hide Heard, HostOk, AgentOk, PendingHolds, CellsOk, Coming, Filled, Config.Bitmap, Config.Data;
    HeardLess(t.st.host, t.st.agent, t.st.replies, i);
  }

  // ---- Stopping ------------------------------------------------------------------------------

  lemma TracedStops(c: Config, t: Traced, cells: seq<Byte>, tags: seq<nat>, next: nat)
    requires c.Valid() && c.Accepted() && Going(c, t) && !t.st.agent.pc.Stopped? && OutsideKept(c, cells)
    ensures Going(c, Traced(Stop(t.st.(cells := cells), false, Reported(t.st.agent)), tags, next))
  {
    hide Heard, HostOk, AgentOk, PendingHolds, Filled, Coming, CellsOk, Config.Bitmap, OutsideKept;
    var h, a := t.st.host, t.st.agent;
    var a' := Stop(t.st, false, Reported(a)).agent;
    HeardMore(h, a, a', t.st.replies, Ack(ACK_FLASH_ERROR));
    StoppedComing(c, h, a', tags, next);
    StoppedKeeps(c, h, a, a', next, cells);
  }

  lemma StoppedKeeps(c: Config, h: Host, a: Agent, a': Agent, next: nat, cells: seq<Byte>)
    requires c.Valid() && c.Accepted() && HostOk(c, h, a) && AgentOk(c, a) && OutsideKept(c, cells)
    requires !a.pc.Stopped? && a' == a.(pc := Stopped(false, Reported(a)), frame := [])
    ensures HostOk(c, h, a') && AgentOk(c, a') && PendingHolds(c, a') && Filled(c, a', next) && CellsOk(c, a', cells)
  {
    hide Config.Bitmap, Config.Data, Config.Flagged, Config.Sectors, Config.Packets, OutsideKept, Final;
  }

  lemma TracedTimeout(c: Config, t: Traced)
    requires c.Valid() && c.Accepted() && Going(c, t) && t.st.agent.pc == Recv
    ensures Going(c, Traced(Stop(t.st, false, t.st.agent.s), t.tags, t.next))
  {
    hide Heard, HostOk, AgentOk, PendingHolds, Coming, Filled, OutsideKept, Config.Bitmap;
    SettledOutside(c, t.st.agent, t.st.cells);
    TracedStops(c, t, t.st.cells, t.tags, t.next);
  }

  lemma TracedEraseFails(c: Config, t: Traced, junk: seq<Byte>)
    requires c.Valid() && c.Accepted() && Going(c, t) && Do(c, t.st, EraseFails(junk)).Some?
    ensures Going(c, Trace(c, t, EraseFails(junk)))
  {
    hide Heard, HostOk, AgentOk, PendingHolds, Coming, Filled, CellsOk, OutsideKept, EraseTarget, Config.Sectors,
      Config.Data, Config.Bitmap;
    var a, st := t.st.agent, t.st;
    TargetNotStopped(c, a);
    TargetCovered(c, a);
    SettledOutside(c, a, st.cells);
    SpliceInside(c, st.cells, EraseTarget(c, a).value, junk);
    TracedStops(c, t, Splice(st.cells, EraseTarget(c, a).value, junk), t.tags, t.next);
  }

  // ---- Control steps ---------------------------------------------------------------------------

  /** Steps between two control points that report nothing. */
  lemma ComingQuiet(c: Config, h: Host, a: Agent, a': Agent, tags: seq<nat>, next: nat)
    requires c.Valid() && HostOk(c, h, a) && Coming(c, h, a, tags, next) && AgentOk(c, a)
    requires a'.frame == a.frame && a'.s == Reported(a) == Reported(a') && !a.pc.Stopped?
    requires (a.pc == Top && (a'.pc == SkipErase || (a'.pc == Recv && a'.got == 0)))
             || (a.pc == SkipErase && a'.pc == SkipReport) || (a.pc == Program && a'.pc == Top)
    ensures HostOk(c, h, a') && Coming(c, h, a', tags, if a.pc == Top then 0 else next)
  {
    hide Rising, Config.Packets, Config.Sectors, Config.Bitmap, Config.Flagged;
    assert Pos(c, h.s, 0) == 0;
  }

  lemma TracedFinishes(c: Config, t: Traced)
    requires c.Valid() && c.Accepted() && Going(c, t) && t.st.agent.pc == Top && t.st.agent.s >= c.Sectors()
    ensures AgentDo(c, t.st).Some? && Going(c, Trace(c, t, AgentStep))
  {
    hide Heard, Coming, Flush, Final, Config.Bitmap, Config.Data, Config.Flagged;
    FlushSettles(c, t.st);
    var st' := AgentDo(c, t.st).value;
    HeardMore(t.st.host, t.st.agent, st'.agent, t.st.replies, Ack(ACK_OK));
    assert Coming(c, st'.host, st'.agent, TagsAfter(c, t, AgentStep), 0) by {
      StoppedComing(c, st'.host, st'.agent, TagsAfter(c, t, AgentStep), 0);
    }
  }

  lemma StoppedComing(c: Config, h: Host, a: Agent, tags: seq<nat>, next: nat)
    requires c.sector > 0 && a.pc.Stopped?
    ensures Coming(c, h, a, tags, next)
  {
  }

  lemma TracedOpens(c: Config, t: Traced)
    requires c.Valid() && c.Accepted() && Going(c, t) && t.st.agent.pc == Top && c.Flagged(t.st.agent.s)
    ensures AgentDo(c, t.st).Some? && Going(c, Trace(c, t, AgentStep))
  {
    hide Heard, HostOk, Coming, SettledAt, Config.Sectors, Config.Flagged, Config.Data, Config.Bitmap;
    FlaggedInside(c, t.st.agent.s);
    var st' := AgentDo(c, t.st).value;
    ComingQuiet(c, t.st.host, t.st.agent, st'.agent, t.tags, t.next);
    HeardQuiet(t.st.host, t.st.agent, st'.agent, t.st.replies);
    assert Avail(c, st'.agent.s, 0) == 0;
  }

  lemma TracedClears(c: Config, t: Traced)
    requires c.Valid() && c.Accepted() && Going(c, t)
    requires t.st.agent.pc == Top && t.st.agent.s < c.Sectors() && !c.Flagged(t.st.agent.s)
    ensures AgentDo(c, t.st).Some? && Going(c, Trace(c, t, AgentStep))
  {
    hide Heard, HostOk, Coming, Final, Config.Sectors, Config.Flagged, Config.Data, Flush, Config.Bitmap;
    FlushSettles(c, t.st);
    var st' := AgentDo(c, t.st).value;
    ComingQuiet(c, t.st.host, t.st.agent, st'.agent, t.tags, t.next);
    HeardQuiet(t.st.host, t.st.agent, st'.agent, t.st.replies);
  }

  lemma TracedErases(c: Config, t: Traced)
    requires c.Valid() && c.Accepted() && Going(c, t) && t.st.agent.pc == SkipErase
    ensures AgentDo(c, t.st).Some? && Going(c, Trace(c, t, AgentStep))
  {
    hide Heard, HostOk, Coming, Final, Config.Sectors, Config.Flagged, Config.Data, Config.Bitmap, PendingHolds, Filled;
    NothingPending(c, t.st.agent);
    NothingFilled(c, t.st.agent.(pc := SkipReport), t.next);
    var m := t.st.agent.s;
    CoverFits(c);
    MulLe(m + 1, c.Sectors(), c.sector);
    assert (m + 1) * c.sector == m * c.sector + c.sector;
    BitmapExact(c, m);
    FinalNext(c, m);
    var st' := AgentDo(c, t.st).value;
    ComingQuiet(c, t.st.host, t.st.agent, st'.agent, t.tags, t.next);
    HeardQuiet(t.st.host, t.st.agent, st'.agent, t.st.replies);
  }

  lemma NothingFilled(c: Config, a: Agent, next: nat)
    requires c.sector > 0 && (a.pc == SkipErase || a.pc == SkipReport || a.pc == Top)
    ensures Filled(c, a, next)
  {
  }

  lemma ComingSkip(c: Config, h: Host, a: Agent, tags: seq<nat>, next: nat)
    requires c.Valid() && HostOk(c, h, a) && Coming(c, h, a, tags, next) && AgentOk(c, a) && a.pc == SkipReport
    ensures var a' := a.(pc := Top, s := a.s + 1); HostOk(c, h, a') && Coming(c, h, a', tags, next)
  {
    hide Config.Bitmap, Config.Sectors, Config.Flagged;
    assert c.Packets(a.s) == 0;
    if h.s == a.s {
      assert h.k == 0 && Pos(c, h.s, 0) == 0;
      RisingNone(tags, 0, 0);
    }
  }

  lemma TracedReportsSkip(c: Config, t: Traced)
    requires c.Valid() && c.Accepted() && Going(c, t) && t.st.agent.pc == SkipReport
    ensures AgentDo(c, t.st).Some? && Going(c, Trace(c, t, AgentStep))
  {
    hide Heard, HostOk, Coming, Final, Config.Sectors, Config.Flagged, Config.Data, Config.Bitmap;
    var st' := AgentDo(c, t.st).value;
    ComingSkip(c, t.st.host, t.st.agent, t.tags, t.next);
    HeardMore(t.st.host, t.st.agent, st'.agent, t.st.replies, ProgressOf(c, t.st.agent.s));
  }

  lemma ComingReport(c: Config, h: Host, a: Agent, tags: seq<nat>, next: nat)
    requires c.Valid() && HostOk(c, h, a) && Coming(c, h, a, tags, next) && AgentOk(c, a) && a.pc == Report
    ensures HostOk(c, h, a.(pc := Program)) && Coming(c, h, a.(pc := Program), tags, next)
  {
    hide Pos, Rising, Config.Packets, Config.Bitmap, Config.Sectors, Config.Flagged;
  }

  lemma TracedReports(c: Config, t: Traced)
    requires c.Valid() && c.Accepted() && Going(c, t) && t.st.agent.pc == Report
    ensures AgentDo(c, t.st).Some? && Going(c, Trace(c, t, AgentStep))
  {
    hide Heard, HostOk, Coming, Final, Config.Sectors, Config.Flagged, Config.Data, Config.Bitmap;
    var st' := AgentDo(c, t.st).value;
    ComingReport(c, t.st.host, t.st.agent, t.tags, t.next);
    HeardMore(t.st.host, t.st.agent, st'.agent, t.st.replies, ProgressOf(c, t.st.agent.s));
  }

  lemma TracedPrograms(c: Config, t: Traced)
    requires c.Valid() && c.Accepted() && Going(c, t) && t.st.agent.pc == Program
    ensures AgentDo(c, t.st).Some? && Going(c, Trace(c, t, AgentStep))
  {
    hide Heard, HostOk, Coming, Final, Config.Sectors, Config.Flagged, Config.Data, Flush, Config.Bitmap;
    FlushSettles(c, t.st);
    var st' := AgentDo(c, t.st).value;
    ComingQuiet(c, t.st.host, t.st.agent, st'.agent, t.tags, t.next);
    HeardQuiet(t.st.host, t.st.agent, st'.agent, t.st.replies);
  }

  // ---- Receiving ---------------------------------------------------------------------------------

  /** A sector that is complete was received packet by packet. */
  lemma ComingComplete(c: Config, h: Host, a: Agent, tags: seq<nat>, next: nat)
    requires c.Valid() && HostOk(c, h, a) && Coming(c, h, a, tags, next) && AgentOk(c, a) && Filled(c, a, next)
    requires a.pc == Recv && a.got >= |c.Data(a.s)|
    ensures a.s == h.s && tags == [] && Filled(c, a.(pc := Report), next)
    ensures HostOk(c, h, a.(pc := Report)) && h.k == c.Packets(h.s)
  {
    hide Pos, Config.Sectors, Config.Bitmap, Config.Data, Pieces;
    var n := |c.Data(a.s)|;
    DataSome(c, a.s);
    PieceBounds(n, CHUNK, next);
    PacketsAre(c, a.s);
    RisingNone(tags, Pos(c, h.s, next), Pos(c, h.s, h.k));
    assert c.Data(a.s)[..n] == c.Data(a.s);
  }

  lemma DataSome(c: Config, s: nat)
    requires c.Valid() && s < c.Sectors()
    ensures |c.Data(s)| > 0
  {
    hide Config.Sectors, Config.Bitmap;
    SectorCount(c, s);
  }

  lemma PacketsAre(c: Config, s: nat)
    requires c.sector > 0 && c.Flagged(s)
    ensures c.Packets(s) == Pieces(|c.Data(s)|, CHUNK)
  {
    hide Config.Flagged, Config.Data;
  }

  lemma TracedSectorDone(c: Config, t: Traced)
    requires c.Valid() && c.Accepted() && Going(c, t)
    requires t.st.agent.pc == Recv && t.st.agent.got >= |c.Data(t.st.agent.s)|
    ensures AgentDo(c, t.st).Some? && Going(c, Trace(c, t, AgentStep))
  {
    hide Heard, HostOk, Filled, SettledAt, Config.Sectors, Config.Flagged, Config.Data, Config.Packets, Config.Bitmap,
      Deliver, Flush, Pos;
    ComingComplete(c, t.st.host, t.st.agent, t.tags, t.next);
    var st' := AgentDo(c, t.st).value;
    HeardQuiet(t.st.host, t.st.agent, st'.agent, t.st.replies);
  }

  /** Bytes in flight are bytes of the sector the agent is receiving. */
  lemma ReceivingHere(c: Config, t: Traced)
    requires c.Valid() && c.Accepted() && Going(c, t) && t.st.agent.pc == Recv && (t.st.ring != [] || t.st.wire != [])
    ensures t.st.agent.s == t.st.host.s && |t.tags| >= |t.st.agent.frame| + 1
  {
    hide Heard, Filled, SettledAt, PendingHolds, Config.Data, Config.Packets, Config.Flagged, Config.Bitmap, Pos,
         Rising;
  }

  lemma TracedBuffers(c: Config, t: Traced)
    requires c.Valid() && c.Accepted() && Going(c, t)
    requires t.st.agent.pc == Recv && t.st.agent.got < |c.Data(t.st.agent.s)| && t.st.ring != []
    requires t.st.ring[0] != 0 && |t.st.agent.frame| + 1 < RX_FRAME
    ensures AgentDo(c, t.st).Some? && Going(c, Trace(c, t, AgentStep))
  {
    hide Heard, SettledAt, Rising, Pos, Config.Sectors, Config.Flagged, Config.Data, Config.Packets, Config.Bitmap,
      Deliver, Flush;
    ReceivingHere(c, t);
    var st' := AgentDo(c, t.st).value;
    HeardQuiet(t.st.host, t.st.agent, st'.agent, t.st.replies);
  }

  /** The agent after storing a chunk. */
  ghost function Stored(a: Agent, chunk: seq<Byte>): Agent
    requires a.rx * SPACING + a.got + |chunk| <= |a.ram|
  {
    a.(got := a.got + |chunk|, ram := Splice(a.ram, a.rx * SPACING + a.got, chunk), frame := [])
  }

  /** Taking packet k >= next: the packets in between are lost for good. */
  lemma Fills(c: Config, a: Agent, next: nat, k: nat)
    requires c.Valid() && AgentOk(c, a) && Filled(c, a, next) && a.pc == Recv && next <= k < c.Packets(a.s)
    ensures var chunk := c.ChunkAt(a.s, k);
            && 0 < |chunk| && a.got + |chunk| <= |c.Data(a.s)| && a.rx * SPACING + a.got + |chunk| <= |a.ram|
            && Filled(c, Stored(a, chunk), k + 1)
  {
    hide Config.Sectors, Config.Bitmap, Config.Data, Config.ChunkAt, Config.Flagged, Upto, Pieces, Splice,
         Config.Packets;
    var d, chunk := c.Data(a.s), c.ChunkAt(a.s, k);
    ChunkIs(c, a.s, k);
    PacketsAre(c, a.s);
    UptoMono(|d|, CHUNK, next, k);
    DataFits(c, a.s);
    if next < k { AvailGap(|d|, next, k); }
    if a.got == Upto(|d|, CHUNK, k) { BufferGrows(a.ram, a.rx * SPACING, a.got, chunk, d); }
  }

  lemma FillsApart(c: Config, a: Agent, chunk: seq<Byte>)
    requires c.Valid() && AgentOk(c, a) && PendingHolds(c, a) && a.pc == Recv && a.got + |chunk| <= |c.Data(a.s)|
    requires a.rx * SPACING + a.got + |chunk| <= |a.ram|
    ensures PendingHolds(c, Stored(a, chunk))
  {
    hide Config.Sectors, Config.Flagged, Config.Bitmap, Config.Data, Splice;
    DataFits(c, a.s);
    if a.pending >= 0 {
      DataFits(c, a.s - 1);
      OtherBufferKept(a.ram, a.rx, a.got, chunk, a.pending, a.pendingBytes);
    }
  }

  lemma ChunkIs(c: Config, s: nat, k: nat)
    requires c.Valid() && k < c.Packets(s)
    ensures var d, u, v := c.Data(s), Upto(|c.Data(s)|, CHUNK, k), Upto(|c.Data(s)|, CHUNK, k + 1);
            u < v <= |d| && c.ChunkAt(s, k) == d[u..v]
  {
    hide Config.Sectors, Config.Flagged, Config.Bitmap, Config.Data;
    PieceBounds(|c.Data(s)|, CHUNK, k);
  }

  lemma AvailGap(n: nat, i: nat, k: nat)
    requires i < k && k < Pieces(n, CHUNK)
    ensures Upto(n, CHUNK, i) < Upto(n, CHUNK, k)
  {
    PieceBounds(n, CHUNK, i);
    UptoMono(n, CHUNK, i + 1, k);
  }

  /** The end of an empty frame, or a frame that does not parse. */
  lemma TracedRefuses(c: Config, t: Traced)
    requires c.Valid() && c.Accepted() && Going(c, t) && EndsFrame(c, t.st)
    requires Parsed(t.st) == [] || Parse(Parsed(t.st)) == None
    requires AgentDo(c, t.st).Some? && !exists k :: Genuine(c, t, k)
    ensures Going(c, Trace(c, t, AgentStep))
  {
    hide Heard, HostOk, AgentOk, PendingHolds, CellsOk, Coming, Filled, Config.Sectors, Config.Flagged, Config.Data,
      Config.Bitmap, Flush, Genuine, Parse;
    var st, a := t.st, t.st.agent;
    ReceivingHere(c, t);
    if Parsed(st) == [] {
      ComingTail(c, st.host, a, t.tags, t.next, 1);
    } else {
      var st1 := st.(ring := st.ring[1..]);
      OutsideNow(c, t);
      StopsHere(c, t, TagsAfter(c, t, AgentStep), t.next);
    }
  }

  lemma OutsideNow(c: Config, t: Traced)
    requires c.Valid() && c.Accepted() && Going(c, t) && !t.st.agent.pc.Stopped?
    ensures OutsideKept(c, t.st.cells)
  {
    hide Heard, HostOk, AgentOk, PendingHolds, Coming, Filled, OutsideKept, Config.Bitmap;
    SettledOutside(c, t.st.agent, t.st.cells);
  }

  /** Stopping while a byte is taken from the ring. */
  lemma StopsHere(c: Config, t: Traced, tags: seq<nat>, next: nat)
    requires c.Valid() && c.Accepted() && Going(c, t) && t.st.agent.pc == Recv && t.st.ring != []
    ensures Going(c, Traced(Stop(t.st.(ring := t.st.ring[1..]), false, t.st.agent.s), tags, next))
  {
    hide Heard, HostOk, AgentOk, PendingHolds, CellsOk, Coming, Filled, OutsideKept, Config.Bitmap;
    OutsideNow(c, t);
    TracedStops(c, t, t.st.cells, tags, next);
    var x, y := Stop(t.st, false, t.st.agent.s), Stop(t.st.(ring := t.st.ring[1..]), false, t.st.agent.s);
    assert x.agent == y.agent && x.host == y.host && x.replies == y.replies && x.sent == y.sent && x.cells == y.cells;
  }

  lemma ComingTail(c: Config, h: Host, a: Agent, tags: seq<nat>, next: nat, n: nat)
    requires c.sector > 0 && Coming(c, h, a, tags, next) && a.pc == Recv && a.s == h.s && n <= |tags|
    ensures Coming(c, h, a, tags[n..], next)
  {
    hide Pos, Rising;
    RisingTail(tags, n, Pos(c, h.s, next), Pos(c, h.s, h.k));
  }

  /** A packet the host sent, whole: it is one the agent has not gone past. */
  lemma ComingPacket(c: Config, h: Host, a: Agent, tags: seq<nat>, next: nat, k: nat, n: nat)
    requires c.Valid() && HostOk(c, h, a) && Coming(c, h, a, tags, next) && a.pc == Recv && a.s == h.s && k < h.k
    requires 0 < n < |tags| && n + 1 == |c.Frames(h.s)(k)|
    requires tags[..n] == Range(Pos(c, h.s, k), Pos(c, h.s, k) + n)
    ensures next <= k < c.Packets(a.s)
    ensures forall a': Agent :: a'.pc == Recv && a'.s == h.s ==> Coming(c, h, a', tags[n + 1..], k + 1)
  {
    hide Pos, Config.Packets, Config.Bitmap, Config.Sectors, Config.Frames;
    PosNext(c, h.s, k);
    var r := Range(Pos(c, h.s, k), Pos(c, h.s, k) + n);
    assert tags[0] == tags[..n][0] == r[0] && tags[n - 1] == tags[..n][n - 1] == r[n - 1];
    if k < next { PosMono(c, h.s, k + 1, next); }
    assert tags[n - 1] < tags[n];
    RisingTail(tags, n + 1, Pos(c, h.s, next), Pos(c, h.s, h.k));
    RisingFrom(tags[n + 1..], tags[n] + 1, Pos(c, h.s, k + 1), Pos(c, h.s, h.k));
  }

  lemma RisingFrom(tags: seq<nat>, lo: nat, low: nat, hi: nat)
    requires Rising(tags, lo, hi) && low <= lo
    ensures Rising(tags, low, hi)
  {
  }

  /** What a genuine packet does to the agent. */
  lemma DeliverPacket(c: Config, st: State, k: nat)
    requires c.Valid() && st.agent.got + |c.ChunkAt(st.agent.s, k)| <= |c.Data(st.agent.s)|
    requires 0 < |c.ChunkAt(st.agent.s, k)|
    requires st.agent.rx * SPACING + st.agent.got + |c.ChunkAt(st.agent.s, k)| <= |st.agent.ram|
    ensures Deliver(c, st, Frame(c.DataPacket(st.agent.s, k)))
         == Some(st.(agent := Stored(st.agent, c.ChunkAt(st.agent.s, k))))
  {
    hide Config.Data, Config.ChunkAt, Config.Bitmap, Frame, Parse, Splice, Cobs.Reach;
    var p := c.DataPacket(st.agent.s, k);
    FrameDecodes(c, st.agent.s, k);
    ParseFrame(p);
    assert p.data[2..] == c.ChunkAt(st.agent.s, k);
  }

  lemma FrameOf(c: Config, s: nat, k: nat, f: seq<Byte>)
    requires f + [0] == c.Frames(s)(k)
    ensures f == Frame(c.DataPacket(s, k)) && f != []
  {
    hide Config.DataPacket;
    FrameShape(c.DataPacket(s, k));
    var g := Frame(c.DataPacket(s, k));
    assert f + [0] == g + [0];
    assert f == (f + [0])[..|f|] && g == (g + [0])[..|g|];
  }

  /** The agent's step that takes packet k. */
  lemma TakesPacket(c: Config, t: Traced, k: nat)
    requires c.Valid() && EndsFrame(c, t.st) && Genuine(c, t, k) && t.st.agent.s == t.st.host.s
    requires var a, chunk := t.st.agent, c.ChunkAt(t.st.agent.s, k);
             0 < |chunk| && a.got + |chunk| <= |c.Data(a.s)| && a.rx * SPACING + a.got + |chunk| <= |a.ram|
    ensures AgentDo(c, t.st)
         == Some(t.st.(ring := t.st.ring[1..], agent := Stored(t.st.agent, c.ChunkAt(t.st.agent.s, k))))
  {
    hide Config.Data, Config.ChunkAt, Config.Frames, Config.DataPacket, Config.Bitmap, Deliver, Frame, Pos, Stored;
    FrameOf(c, t.st.host.s, k, t.st.agent.frame);
    DeliverPacket(c, t.st.(ring := t.st.ring[1..]), k);
  }

  lemma TakesNext(c: Config, t: Traced, k: nat)
    requires c.Valid() && c.Accepted() && Going(c, t) && EndsFrame(c, t.st) && Genuine(c, t, k)
    ensures t.st.agent.s == t.st.host.s && |t.tags| >= |t.st.agent.frame| + 1
    ensures var a, chunk := t.st.agent, c.ChunkAt(t.st.agent.s, k);
            && 0 < |chunk| && a.got + |chunk| <= |c.Data(a.s)| && a.rx * SPACING + a.got + |chunk| <= |a.ram|
            && var a' := Stored(a, chunk);
               && Filled(c, a', k + 1) && PendingHolds(c, a')
               && Coming(c, t.st.host, a', t.tags[|a.frame| + 1..], k + 1)
  {
    hide Heard, PendingHolds, CellsOk, Coming, Filled, Config.Sectors, Config.Flagged, Config.Data,
      Config.ChunkAt, Config.Packets, Config.Frames, Config.Bitmap, Pos, Stored;
    var a := t.st.agent;
    ReceivingHere(c, t);
    FrameOf(c, t.st.host.s, k, a.frame);
    ComingPacket(c, t.st.host, a, t.tags, t.next, k, |a.frame|);
    Fills(c, a, t.next, k);
    FillsApart(c, a, c.ChunkAt(a.s, k));
    StoredKeeps(a, c.ChunkAt(a.s, k));
  }

  lemma TracedTakes(c: Config, t: Traced)
    requires c.Valid() && c.Accepted() && Going(c, t) && EndsFrame(c, t.st) && exists k :: Genuine(c, t, k)
    ensures AgentDo(c, t.st).Some? && Going(c, Trace(c, t, AgentStep))
  {
    var k := PacketOf(c, t);
    hide Going, Config.Data, AgentDo, Config.ChunkAt, Config.Bitmap, Genuine, Stored, TagsAfter, NextAfter, Filled,
         PendingHolds, Coming, Do, EndsFrame;
    TakesNext(c, t, k);
    TakesPacket(c, t, k);
    TakenTags(c, t);
    TakesKeeps(c, t, k);
    AgentDoes(c, t.st);
  }

  lemma AgentDoes(c: Config, st: State)
    requires c.page > 0 && c.sector > 0
    ensures Do(c, st, AgentStep) == AgentDo(c, st)
  {
    hide AgentDo;
  }

  lemma TakesKeeps(c: Config, t: Traced, k: nat)
    requires c.Valid() && c.Accepted() && Going(c, t) && EndsFrame(c, t.st) && Genuine(c, t, k)
    requires |t.tags| >= |t.st.agent.frame| + 1
    requires t.st.agent.rx * SPACING + t.st.agent.got + |c.ChunkAt(t.st.agent.s, k)| <= |t.st.agent.ram|
    ensures var a' := Stored(t.st.agent, c.ChunkAt(t.st.agent.s, k));
            Going(c, Traced(t.st.(ring := t.st.ring[1..], agent := a'), t.tags[|t.st.agent.frame| + 1..], k + 1))
  {
    hide Heard, HostOk, AgentOk, CellsOk, PendingHolds, Coming, Filled, Config.Data, Config.ChunkAt,
      Config.Bitmap, Genuine, Stored;
    var st, h, a := t.st, t.st.host, t.st.agent;
    TakesNext(c, t, k);
    var a' := Stored(a, c.ChunkAt(a.s, k));
    StoredKeeps(a, c.ChunkAt(a.s, k));
    HeardQuiet(h, a, a', st.replies);
    HostSame(c, h, a, a');
    SameOk(c, a, a', st.cells);
  }

  lemma TakenTags(c: Config, t: Traced)
    requires c.sector > 0 && EndsFrame(c, t.st) && |t.tags| >= |t.st.agent.frame| + 1 && exists k :: Genuine(c, t, k)
    ensures TagsAfter(c, t, AgentStep) == t.tags[|t.st.agent.frame| + 1..]
    ensures NextAfter(c, t, AgentStep) == PacketOf(c, t) + 1
  {
    hide Genuine, Config.Data;
  }

  lemma SameOk(c: Config, a: Agent, a': Agent, cells: seq<Byte>)
    requires c.Valid() && c.Accepted() && AgentOk(c, a) && CellsOk(c, a, cells)
    requires a'.pc == a.pc && a'.s == a.s && a'.rx == a.rx && a'.pending == a.pending && |a'.ram| == |a.ram|
    ensures AgentOk(c, a') && CellsOk(c, a', cells)
  {
    hide Config.Sectors, Config.Flagged, Config.Bitmap, SettledAt;
  }

  lemma StoredKeeps(a: Agent, chunk: seq<Byte>)
    requires a.rx * SPACING + a.got + |chunk| <= |a.ram|
    ensures var a' := Stored(a, chunk);
            && a'.pc == a.pc && a'.s == a.s && a'.rx == a.rx && a'.pending == a.pending && a'.frame == []
            && |a'.ram| == |a.ram|
  {
  }

  lemma HostSame(c: Config, h: Host, a: Agent, a': Agent)
    requires c.sector > 0 && HostOk(c, h, a) && a'.pc == a.pc && a'.s == a.s
    ensures HostOk(c, h, a')
  {
    hide Config.Packets, Config.Sectors;
  }

  // ---- Every step and every run ----------------------------------------------------------------------

  lemma TracedAgent(c: Config, t: Traced)
    requires c.Valid() && c.Accepted() && Going(c, t) && AgentDo(c, t.st).Some? && !Deceived(c, t)
    ensures Going(c, Trace(c, t, AgentStep))
  {
    hide Going, Trace, Genuine, Config.Data, Config.Flagged, Config.Sectors, Config.Bitmap, Parse;
    var a := t.st.agent;
    NotChecking(c, t);
    match a.pc
    case Top =>
      if a.s >= c.Sectors() { TracedFinishes(c, t); }
      else if c.Flagged(a.s) { TracedOpens(c, t); }
      else { TracedClears(c, t); }
    case SkipErase => TracedErases(c, t);
    case SkipReport => TracedReportsSkip(c, t);
    case Report => TracedReports(c, t);
    case Program => TracedPrograms(c, t);
    case Recv =>
      if a.got >= |c.Data(a.s)| { TracedSectorDone(c, t); }
      else if !EndsFrame(c, t.st) { TracedBuffers(c, t); }
      else if exists k :: Genuine(c, t, k) { TracedTakes(c, t); }
      else { TracedRefuses(c, t); }
  }

  lemma NotChecking(c: Config, t: Traced)
    requires c.Valid() && c.Accepted() && Going(c, t)
    ensures t.st.agent.pc != Check
  {
  }

  lemma TracedStart(c: Config, t: Traced, act: Action)
    requires c.Valid() && Still(c, t) && Do(c, t.st, act).Some?
    ensures Holds(c, Trace(c, t, act))
  {
    hide Still, Going, Do, AgentDo, TagsAfter, NextAfter, Config.Bitmap;
    if act == AgentStep && c.Accepted() {
      AgentDoes(c, t.st);
      TracedBegins(c, t);
    } else {
      StaysStill(c, t, act);
    }
  }

  lemma StaysStill(c: Config, t: Traced, act: Action)
    requires c.Valid() && Still(c, t) && Do(c, t.st, act).Some? && !(act == AgentStep && c.Accepted())
    ensures Still(c, Trace(c, t, act))
  {
    hide Idle, Do, Config.Bitmap, TagsAfter, NextAfter;
    IdleTags(c, t, act);
    match act
    case HostStep => IdleHost(c, t.st, act);
    case HostTimeout => IdleHost(c, t.st, act);
    case LoseReply(_) => IdleHost(c, t.st, act);
    case _ => IdleAgent(c, t.st, act);
  }

  lemma IdleTags(c: Config, t: Traced, act: Action)
    requires c.sector > 0 && t.tags == [] && Idle(c, t.st)
    ensures TagsAfter(c, t, act) == []
  {
    hide Config.Packets, Config.Data, Pos;
  }

  lemma IdleHost(c: Config, st: State, act: Action)
    requires c.Valid() && Idle(c, st) && Do(c, st, act).Some?
    requires act == HostStep || act == HostTimeout || act.LoseReply?
    ensures Idle(c, Do(c, st, act).value)
  {
    hide HostAt, Config.Bitmap, Config.Accepted, Config.Sectors, AgentDo;
  }

  lemma IdleAgent(c: Config, st: State, act: Action)
    requires c.Valid() && Idle(c, st) && Do(c, st, act).Some? && !(act == AgentStep && c.Accepted())
    requires act != HostStep && act != HostTimeout && !act.LoseReply?
    ensures Idle(c, Do(c, st, act).value)
  {
    hide HostDo, Config.Bitmap, Config.Accepted, Config.Sectors, Config.Flagged, Config.Data, Flush, Receive;
  }

  lemma TracedBegins(c: Config, t: Traced)
    requires c.Valid() && c.Accepted() && Still(c, t) && AgentDo(c, t.st).Some?
    ensures Going(c, Trace(c, t, AgentStep))
  {
    hide Config.Data, Config.Flagged, Config.Sectors, Config.Bitmap, Final, Config.Packets, Config.Frames, Flush,
         Receive;
    StartSettled(c);
    NothingFilled(c, AgentDo(c, t.st).value.agent, t.next);
    assert [Ack(ACK_OK)][1..] == [];
    assert Progresses([Ack(ACK_OK)]) == 0;
    assert [] + [Ack(ACK_OK)] == [Ack(ACK_OK)];
  }

  lemma StartSettled(c: Config)
    requires c.Valid() && c.Accepted()
    ensures SettledAt(c, 0, c.cells)
  {
    hide Config.Bitmap;
    assert StoredPages(c.image[..0], c.page) + Fill(0, 255) == [];
  }

  /** Every step keeps the invariant, whatever it loses or damages, unless a damaged stretch
      passes its CRC-32. */
  lemma StepHolds(c: Config, t: Traced, act: Action)
    requires c.Valid() && Holds(c, t) && Do(c, t.st, act).Some? && !(act == AgentStep && Deceived(c, t))
    ensures Holds(c, Trace(c, t, act))
  {
    hide Going, Still, HostDo, AgentDo, Deceived, Config.Bitmap, TagsAfter, NextAfter;
    if Still(c, t) {
      TracedStart(c, t, act);
    } else {
      match act
      case HostStep => TracedHost(c, t);
      case AgentStep => TracedAgent(c, t);
      case Arrive => TracedWire(c, t, act);
      case Lose => TracedWire(c, t, act);
      case Garble(_) => TracedWire(c, t, act);
      case Break => TracedBreak(c, t);
      case LoseReply(i) => TracedReplyLost(c, t, i);
      case AgentTimeout => TracedTimeoutStep(c, t);
      case HostTimeout => TracedHostTimeout(c, t);
      case EraseFails(junk) => TracedEraseFails(c, t, junk);
    }
  }

  lemma TracedTimeoutStep(c: Config, t: Traced)
    requires c.Valid() && c.Accepted() && Going(c, t) && Do(c, t.st, AgentTimeout).Some?
    ensures Going(c, Trace(c, t, AgentTimeout))
  {
    hide Going, Config.Data, Config.Bitmap;
    TracedTimeout(c, t);
  }

  lemma {:induction false} RunHolds(c: Config, t: Traced, acts: seq<Action>) returns (end: Traced)
    requires c.Valid() && Holds(c, t) && Run(c, t.st, acts).Some? && Undeceived(c, t, acts)
    ensures Holds(c, end) && Run(c, t.st, acts) == Some(end.st)
    decreases |acts|
  {
    hide Holds, Do, Deceived, TagsAfter, NextAfter;
    if acts == [] {
      end := t;
    } else {
      StepHolds(c, t, acts[0]);
      end := RunHolds(c, Trace(c, t, acts[0]), acts[1..]);
    }
  }
}
