/** What a timeout does: a packet is sent again, byte for byte, until it has been sent
    1 + maxRetries times, and a download survives every loss that leaves one copy of each. */
module TftpRetries {
  import opened Options
  import opened TftpServer
  import opened TftpTimers
  import opened TftpTheorems
  import E = TftpEndToEnd
  import C = TftpCompletion

  // ---- The packet a transfer waits on ------------------------------------------------------

  /** Where and what transfer `id` was sent last. */
  function Latest(log: seq<Sent>, id: nat): Option<(Addr, Packet)>
  {
    if log == [] then None
    else
      var last := log[|log| - 1];
      if last.Tracked? && last.id == id then Some((last.to, last.packet)) else Latest(log[..|log| - 1], id)
  }

  lemma LatestAppend(log: seq<Sent>, e: Sent, id: nat)
    ensures Latest(log + [e], id)
         == if e.Tracked? && e.id == id then Some((e.to, e.packet)) else Latest(log, id)
  {
    assert (log + [e])[..|log|] == log;
  }

  /** Every live transfer remembers what it was sent last. */
  ghost predicate Remembers(s: Server)
  {
    forall a :: a in s.transfers ==> Latest(s.log, s.transfers[a].id) == Some((a, s.transfers[a].last))
  }

  /** Remembers, but for the transfer of address a. */
  ghost predicate OthersRemember(s: Server, a: Addr, id: nat)
  {
    forall x :: x in s.transfers && x != a ==>
      s.transfers[x].id != id && Latest(s.log, s.transfers[x].id) == Some((x, s.transfers[x].last))
  }

  lemma SendRemembers(s: Server, a: Addr, t: Transfer, p: Packet)
    requires OthersRemember(s, a, t.id)
    ensures Remembers(SendTracked(s, a, t, p))
  {
    hide Latest, Disarm;
    var s' := SendTracked(s, a, t, p);
    forall x | x in s'.transfers ensures Latest(s'.log, s'.transfers[x].id) == Some((x, s'.transfers[x].last)) {
      LatestAppend(s.log, Tracked(a, t.id, t.block, p), s'.transfers[x].id);
    }
  }

  /** A block that cannot be numbered is not sent; the one before it stays the last. */
  lemma BlockRemembers(s: Server, a: Addr, t: Transfer)
    requires OthersRemember(s, a, t.id)
    requires t.block < MAX_BLOCK || Latest(s.log, t.id) == Some((a, t.last))
    ensures Remembers(SendBlock(s, a, t))
  {
    hide Latest, Block, SendTracked;
    var t1 := t.(block := t.block + 1);
    if t1.block <= MAX_BLOCK {
      var bytes := Block(t1.data, t1.blocksize, t1.block);
      SendRemembers(s, a, t1.(complete := t1.complete || |bytes| < t1.blocksize), Data(t1.block, bytes));
    }
  }

  lemma PlainRemembers(s: Server, a: Addr, p: Packet)
    requires Remembers(s)
    ensures Remembers(s.(log := s.log + [Plain(a, p)]))
  {
    hide Latest;
    forall x | x in s.transfers
      ensures Latest(s.log + [Plain(a, p)], s.transfers[x].id) == Latest(s.log, s.transfers[x].id)
    {
      LatestAppend(s.log, Plain(a, p), s.transfers[x].id);
    }
  }

  lemma RrqRemembers(cfg: Config, s: Server, a: Addr, req: Request)
    requires cfg.Valid() && Remembers(s) && CountsOk(cfg, s)
    ensures Remembers(OnRrq(cfg, s, a, req))
  {
    hide Latest, CountOk, LogBounded, SendTracked, SendBlock, Disarm, Negotiated;
    PlainRemembers(s, a, Error(0));
    PlainRemembers(s, a, Error(1));
    if req.For? && !(a !in s.transfers && |s.transfers| >= MAX_TRANSFERS) && req.name in cfg.files {
      var size := Negotiated(cfg, req);
      var t := Transfer(s.nextId, cfg.files[req.name], size, 0, false, 0, Error(0), None);
      var armed := if a in s.transfers then Disarm(s.armed, s.transfers[a]) else s.armed;
      var s1 := s.(transfers := s.transfers[a := t], armed := armed, nextId := s.nextId + 1);
      assert OthersRemember(s1, a, t.id);
      if req.blksize.Some? { SendRemembers(s1, a, t, Oack(size)); } else { BlockRemembers(s1, a, t); }
    }
  }

  lemma AckRemembers(cfg: Config, s: Server, a: Addr, n: nat)
    requires Remembers(s) && CountsOk(cfg, s)
    ensures Remembers(OnAck(s, a, n))
  {
    hide Latest, CountOk, LogBounded, SendBlock, Disarm;
    if a in s.transfers {
      var t := s.transfers[a];
      assert OthersRemember(s, a, t.id);
      if n == 0 && t.block == 0 {
        BlockRemembers(s, a, t.(retries := 0));
      } else if n == t.block && !t.complete {
        BlockRemembers(s.(armed := Disarm(s.armed, t)), a, t.(retries := 0, timer := None));
      }
    }
  }

  lemma TimerRemembers(cfg: Config, s: Server, timer: nat)
    requires Remembers(s) && CountsOk(cfg, s) && timer in s.armed
    ensures Remembers(OnTimer(cfg, s, timer))
  {
    hide Latest, CountOk, LogBounded, SendTracked;
    var (a, id) := s.armed[timer];
    if a in s.transfers && s.transfers[a].id == id {
      var s1 := s.(armed := s.armed - {timer});
      var t := s.transfers[a].(timer := None);
      assert OthersRemember(s1, a, t.id);
      SendRemembers(s1, a, t.(retries := t.retries + 1), t.last);
    }
  }

  lemma RemembersKept(cfg: Config, s: Server, e: Event)
    requires cfg.Valid() && ServerOk(cfg, s) && Remembers(s) && Possible(s, e)
    ensures Remembers(Handle(cfg, s, e))
  {
    hide CountsOk, TimersOk, FilesOk, Latest, OnRrq, OnAck, OnTimer;
    match e
    case Fire(timer) => TimerRemembers(cfg, s, timer);
    case Receive(a, d) =>
      match d
      case Rrq(req) => RrqRemembers(cfg, s, a, req);
      case Ack(n) => AckRemembers(cfg, s, a, n);
      case ClientError =>
      case OtherOpcode => PlainRemembers(s, a, Error(4));
      case Runt =>
  }

  /** In every run the packet a live transfer would send again is the one it sent last. */
  lemma {:induction false} RunRemembers(cfg: Config, s: Server, es: seq<Event>, s': Server)
    requires cfg.Valid() && ServerOk(cfg, s) && Remembers(s) && Runs(cfg, s, es, s')
    ensures ServerOk(cfg, s') && Remembers(s')
    decreases |es|
  {
    hide ServerOk, Remembers, Handle;
    if es != [] {
      EventKeeps(cfg, s, es[0]);
      RemembersKept(cfg, s, es[0]);
      RunRemembers(cfg, Handle(cfg, s, es[0]), es[1..], s');
    }
  }

  lemma IdleRemembers(cfg: Config)
    ensures ServerOk(cfg, IDLE) && Remembers(IDLE)
  {
  }

  // ---- A timer fires -------------------------------------------------------------------------

  /** While its packet has been sent at most maxRetries times, a timeout sends that very
      packet once more to the same client, and the transfer goes on with a timer armed. */
  lemma TimeoutResends(cfg: Config, es: seq<Event>, s: Server, timer: nat)
    requires cfg.Valid() && Runs(cfg, IDLE, es, s) && timer in s.armed
    ensures var (a, id) := s.armed[timer]; a in s.transfers && s.transfers[a].id == id
    ensures var (a, id), s' := s.armed[timer], Handle(cfg, s, Fire(timer));
            var block := s.transfers[a].block;
            Sends(s.log, id, block) <= cfg.maxRetries ==>
              && |s'.log| == |s.log| + 1 && s.log <= s'.log && s'.completed == s.completed
              && s'.log[|s.log|].Tracked? && s'.log[|s.log|].id == id && s'.log[|s.log|].block == block
              && Latest(s.log, id) == Some((s'.log[|s.log|].to, s'.log[|s.log|].packet)) && s'.log[|s.log|].to == a
              && a in s'.transfers && s'.transfers[a].id == id && s'.transfers[a].block == block
              && s'.transfers - {a} == s.transfers - {a}
              && exists next :: next in s'.armed && s'.armed[next] == (a, id)
  {
    hide Sends, Latest, ServerOk, Remembers, OnTimer;
    IdleRemembers(cfg);
    RunRemembers(cfg, IDLE, es, s);
    TimedTransfer(cfg, s, timer);
    var (a, id) := s.armed[timer];
    if Sends(s.log, id, s.transfers[a].block) <= cfg.maxRetries { Resent(cfg, s, timer, a, id); }
  }

  lemma TimedTransfer(cfg: Config, s: Server, timer: nat)
    requires ServerOk(cfg, s) && Remembers(s) && timer in s.armed
    ensures var (a, id) := s.armed[timer];
            && a in s.transfers && s.transfers[a].id == id && Latest(s.log, id) == Some((a, s.transfers[a].last))
            && Sends(s.log, id, s.transfers[a].block) == s.transfers[a].retries + 1
  {
    hide Sends, Latest, FilesOk;
    var (a, id) := s.armed[timer];
    assert CountOk(cfg, s.log, s.transfers[a]);
    assert !Stranded(s.transfers[a]);
  }

  lemma Resent(cfg: Config, s: Server, timer: nat, a: Addr, id: nat)
    requires timer in s.armed && s.armed[timer] == (a, id) && a in s.transfers && s.transfers[a].id == id
    requires s.transfers[a].retries < cfg.maxRetries
    ensures var t, s' := s.transfers[a], OnTimer(cfg, s, timer);
            && s'.log == s.log + [Tracked(a, id, t.block, t.last)] && s'.completed == s.completed
            && s'.transfers - {a} == s.transfers - {a}
            && a in s'.transfers && s'.transfers[a].id == id && s'.transfers[a].block == t.block
            && exists next :: next in s'.armed && s'.armed[next] == (a, id)
  {
    var s' := OnTimer(cfg, s, timer);
    assert s.nextTimer in s'.armed && s'.armed[s.nextTimer] == (a, id);
  }

  /** Once it has been sent more often than that the transfer is dropped: nothing is sent,
      nothing is counted complete, no timer is left for it. */
  lemma TimeoutGivesUp(cfg: Config, es: seq<Event>, s: Server, timer: nat)
    requires cfg.Valid() && Runs(cfg, IDLE, es, s) && timer in s.armed
    ensures var (a, id), s' := s.armed[timer], Handle(cfg, s, Fire(timer));
            && a in s.transfers
            && (Sends(s.log, id, s.transfers[a].block) > cfg.maxRetries ==>
                  && s'.transfers == s.transfers - {a} && s'.log == s.log && s'.completed == s.completed
                  && s'.armed == s.armed - {timer}
                  && forall next :: next in s'.armed ==> s'.armed[next].0 != a)
  {
    hide Sends, Latest;
    IdleRemembers(cfg);
    RunRemembers(cfg, IDLE, es, s);
    TimedTransfer(cfg, s, timer);
    hide Remembers, CountsOk, FilesOk;
    var (a, id) := s.armed[timer];
    assert forall next :: next in s.armed && s.armed[next].0 == a ==> next == timer;
  }

  // ---- Downloads that lose packets -----------------------------------------------------------

  /** The server has a numbered packet out to this client. */
  ghost predicate Waiting(j: E.Job, w: E.World)
    requires j.Valid()
  {
    && E.WorldOk(j, w) && ServerOk(j.cfg, w.server)
    && j.me in w.server.transfers && w.server.transfers[j.me].block <= MAX_BLOCK
  }

  /** From w to w' only block b of transfer `id` was sent. */
  ghost predicate OnlySent(w: E.World, w': E.World, id: nat, b: nat)
  {
    && w.server.log <= w'.server.log
    && forall n: nat :: n != b ==> Sends(w'.server.log, id, n) == Sends(w.server.log, id, n)
  }

  lemma OnlyMore(w: E.World, w': E.World, id: nat, b: nat)
    requires OnlySent(w, w', id, b)
    ensures w.server.log <= w'.server.log
  {
    hide Sends;
  }

  lemma OnlySentMore(w: E.World, w1: E.World, w2: E.World, id: nat, b: nat)
    requires OnlySent(w, w1, id, b) && OnlySent(w1, w2, id, b)
    ensures OnlySent(w, w2, id, b)
  {
    hide Sends;
  }

  lemma OneMoreSent(w: E.World, w': E.World, e: Sent, id: nat)
    requires w'.server.log == w.server.log + [e] && e.Tracked? && e.id == id
    ensures OnlySent(w, w', id, e.block)
  {
    SendsMore(w.server.log, e);
    hide Sends;
  }

  /** The timer fires while a retry is left. */
  lemma TimesOutOnce(j: E.Job, w: E.World) returns (act: E.Action, w': E.World)
    requires j.Valid() && Waiting(j, w) && w.server.transfers[j.me].retries < j.cfg.maxRetries
    ensures E.Can(j, w, act) && w' == E.Next(j, w, act) && Waiting(j, w') && w'.client == w.client
    ensures w'.server.transfers[j.me].id == w.server.transfers[j.me].id
    ensures w'.server.transfers[j.me].block == w.server.transfers[j.me].block
    ensures w'.server.transfers[j.me].retries == w.server.transfers[j.me].retries + 1
    ensures OnlySent(w, w', w.server.transfers[j.me].id, w.server.transfers[j.me].block)
  {
    var t := w.server.transfers[j.me];
    assert t.timer.Some? && t.timer.value in w.server.armed && w.server.armed[t.timer.value] == (j.me, t.id);
    hide E.WorldOk, ServerOk, Sends, Disarm, OnlySent;
    act := E.Timer(t.timer.value);
    w' := E.Next(j, w, act);
    E.StepKeeps(j, w, act);
    EventKeeps(j.cfg, w.server, Fire(t.timer.value));
    OneMoreSent(w, w', Tracked(j.me, t.id, t.block, t.last), t.id);
  }

  /** It fires k times in a row. */
  lemma {:induction false} TimesOut(j: E.Job, w: E.World, k: nat) returns (acts: seq<E.Action>, w': E.World)
    requires j.Valid() && Waiting(j, w) && w.server.transfers[j.me].retries + k <= j.cfg.maxRetries
    ensures E.Reaches(j, w, acts, w') && Waiting(j, w') && w'.client == w.client
    ensures w'.server.transfers[j.me].id == w.server.transfers[j.me].id
    ensures w'.server.transfers[j.me].block == w.server.transfers[j.me].block
    ensures w'.server.transfers[j.me].retries == w.server.transfers[j.me].retries + k
    ensures OnlySent(w, w', w.server.transfers[j.me].id, w.server.transfers[j.me].block)
    decreases k
  {
    hide E.WorldOk, ServerOk, E.Can, E.Next, OnlySent;
    if k == 0 {
      acts, w' := [], w;
      assert OnlySent(w, w, w.server.transfers[j.me].id, w.server.transfers[j.me].block) by { NothingSent(w); }
    } else {
      var act, w1 := TimesOutOnce(j, w);
      acts, w' := TimesOut(j, w1, k - 1);
      OnlySentMore(w, w1, w', w.server.transfers[j.me].id, w.server.transfers[j.me].block);
      assert ([act] + acts)[1..] == acts;
      acts := [act] + acts;
    }
  }

  lemma NothingSent(w: E.World)
    ensures forall id, b :: OnlySent(w, w, id, b)
  {
  }

  /** What was sent can still arrive. */
  lemma StillSendable(w: E.World, w': E.World, p: Packet, me: Addr)
    requires E.Sendable(w, p, me) && w.server.log <= w'.server.log
    ensures E.Sendable(w', p, me)
  {
    var i :| 0 <= i < |w.server.log| && w.server.log[i].to == me && w.server.log[i].packet == p;
    assert w'.server.log[i] == w.server.log[i];
  }

  /** Its packet was sent once and once per retry. */
  lemma SentCount(j: E.Job, w: E.World)
    requires j.Valid() && Waiting(j, w)
    ensures var t := w.server.transfers[j.me];
            && Sends(w.server.log, t.id, t.block) == t.retries + 1
            && forall b :: b > t.block ==> Sends(w.server.log, t.id, b) == 0
  {
    hide Sends, E.WorldOk;
    assert CountOk(j.cfg, w.server.log, w.server.transfers[j.me]);
  }

  /** An acknowledgement that makes the server send the next block, for the first time. */
  lemma AckStartsBlock(j: E.Job, w: E.World, n: nat)
    requires j.Valid() && Waiting(j, w) && Ack(n) in w.client.log
    requires n == w.server.transfers[j.me].block == w.client.blocks && n + 1 <= MAX_BLOCK
    requires n == 0 || !w.server.transfers[j.me].complete
    ensures var t, w' := w.server.transfers[j.me], E.Next(j, w, E.ToServer(Ack(n)));
            && C.InStep(j, w') && Waiting(j, w') && w'.client == w.client
            && w'.server.transfers[j.me].id == t.id && w'.server.transfers[j.me].retries == 0
            && OnlySent(w, w', t.id, n + 1)
  {
    hide E.WorldOk, ServerOk, Sends, Disarm, OnlySent, Block, E.Sendable;
    var t, w' := w.server.transfers[j.me], E.Next(j, w, E.ToServer(Ack(n)));
    C.AckSends(j, w, n);
    EventKeeps(j.cfg, w.server, Receive(j.me, Ack(n)));
    OneMoreSent(w, w', Tracked(j.me, t.id, n + 1, Data(n + 1, Block(t.data, t.blocksize, n + 1))), t.id);
  }

  lemma CountsThis(j: E.Job, w: E.World, n: nat)
    requires j.Valid() && j.me in w.server.transfers && w.server.transfers[j.me].complete
    requires n > 0 && w.server.transfers[j.me].block == n && Ack(n) in w.client.log
    ensures var w' := E.Next(j, w, E.ToServer(Ack(n)));
            (j.me, w.server.transfers[j.me].id) in w'.server.completed && w'.server.log == w.server.log
  {
    var s := OnAck(w.server, j.me, n);
    assert s.completed[|s.completed| - 1] == (j.me, w.server.transfers[j.me].id);
  }

  /** Transfer `id` was sent every block from b on 1 + losses times, and what lies before b
      no more often than in w. */
  ghost predicate SentWithLosses(j: E.Job, w: E.World, w': E.World, id: nat, b: nat, losses: nat -> nat)
    requires j.Valid()
  {
    && (forall n: nat :: b <= n <= j.Last() ==> Sends(w'.server.log, id, n) == 1 + losses(n))
    && (forall n: nat :: n < b ==> Sends(w'.server.log, id, n) == Sends(w.server.log, id, n))
  }

  lemma LossesAdd(j: E.Job, w: E.World, w1: E.World, w2: E.World, w3: E.World, id: nat, b: nat, losses: nat -> nat)
    requires j.Valid() && OnlySent(w, w1, id, b) && OnlySent(w1, w2, id, b + 1)
    requires Sends(w1.server.log, id, b) == 1 + losses(b) && SentWithLosses(j, w2, w3, id, b + 1, losses)
    ensures SentWithLosses(j, w, w3, id, b, losses)
  {
    hide Sends, E.Job.Last;
  }

  lemma LossesEnd(j: E.Job, w: E.World, w1: E.World, id: nat, losses: nat -> nat)
    requires j.Valid() && OnlySent(w, w1, id, j.Last())
    requires Sends(w1.server.log, id, j.Last()) == 1 + losses(j.Last())
    ensures SentWithLosses(j, w, w1, id, j.Last(), losses)
  {
    hide Sends, E.Job.Last;
  }

  /** Every block is lost as often as `losses` says, then arrives and is acknowledged. */
  lemma {:induction false} FinishesLossy(j: E.Job, w: E.World, losses: nat -> nat)
    returns (acts: seq<E.Action>, w': E.World)
    requires j.Valid() && C.InStep(j, w) && Waiting(j, w) && j.Last() <= MAX_BLOCK
    requires w.server.transfers[j.me].retries == 0 && forall n :: losses(n) <= j.cfg.maxRetries
    ensures E.Reaches(j, w, acts, w') && (j.me, w.server.transfers[j.me].id) in w'.server.completed
    ensures SentWithLosses(j, w, w', w.server.transfers[j.me].id, w.client.blocks + 1, losses)
    decreases j.Last() - w.client.blocks
  {
    hide E.WorldOk, ServerOk, E.Sendable, OnAck, Sends, OnlySent, SentWithLosses, Block;
    hide E.Job.Last, E.Job.File, E.Job.Size, E.Reaches;
    var n, id := w.client.blocks + 1, w.server.transfers[j.me].id;
    var lost, w0 := TimesOut(j, w, losses(n));
    SentCount(j, w0);
    var p := E.ToClient(Data(n, Block(j.File(), j.Size(), n)));
    OnlyMore(w, w0, id, n);
    StaysInStep(j, w, w0);
    var w1 := C.BlockArrives(j, w0);
    assert ServerOk(j.cfg, w1.server);
    C.OfJob(j, w1);
    var w2 := E.Next(j, w1, E.ToServer(Ack(n)));
    if n == j.Last() {
      CountsThis(j, w1, n);
      acts, w' := [], w2;
      assert E.Reaches(j, w2, acts, w2) by { C.ReachesNone(j, w2); }
      LossesEnd(j, w, w0, id, losses);
      SameLog(j, w, w0, w2, id, n, losses);
    } else {
      AckStartsBlock(j, w1, n);
      acts, w' := FinishesLossy(j, w2, losses);
      SameServer(w0, w1, w2, id, n + 1);
      LossesAdd(j, w, w0, w2, w', id, n, losses);
    }
    C.ReachesTwo(j, w0, p, E.ToServer(Ack(n)), acts, w');
    C.ReachesMore(j, w, lost, w0, [p, E.ToServer(Ack(n))] + acts, w');
    acts := lost + ([p, E.ToServer(Ack(n))] + acts);
  }

  lemma SameServer(w0: E.World, w1: E.World, w2: E.World, id: nat, b: nat)
    requires w0.server == w1.server && OnlySent(w1, w2, id, b)
    ensures OnlySent(w0, w2, id, b)
  {
    hide Sends;
  }

  lemma SameLog(j: E.Job, w: E.World, w0: E.World, w2: E.World, id: nat, b: nat, losses: nat -> nat)
    requires j.Valid() && w0.server.log == w2.server.log && SentWithLosses(j, w, w0, id, b, losses)
    ensures SentWithLosses(j, w, w2, id, b, losses)
  {
    hide Sends;
  }

  lemma StaysInStep(j: E.Job, w: E.World, w': E.World)
    requires j.Valid() && C.InStep(j, w) && Waiting(j, w') && w'.client == w.client
    requires w'.server.transfers[j.me].block == w.server.transfers[j.me].block && w.server.log <= w'.server.log
    ensures C.InStep(j, w')
  {
    hide E.WorldOk, ServerOk, Block, E.Sendable;
    var n := w.client.blocks + 1;
    StillSendable(w, w', Data(n, Block(j.File(), j.Size(), n)), j.me);
  }

  // ---- From the request on ---------------------------------------------------------------

  lemma StepServerOk(j: E.Job, w: E.World, act: E.Action)
    requires j.Valid() && E.WorldOk(j, w) && ServerOk(j.cfg, w.server) && E.Can(j, w, act)
    ensures ServerOk(j.cfg, E.Next(j, w, act).server)
  {
    assert act.ToServer? ==> E.Says(j, w.client, act.d);
    assert w.client.blocks <= MAX_BLOCK;
    hide E.WorldOk, ServerOk, OnRrq, OnAck, OnTimer, E.OnPacket;
    match act
    case ToServer(d) => EventKeeps(j.cfg, w.server, Receive(j.me, d));
    case Stranger(a, d) => EventKeeps(j.cfg, w.server, Receive(a, d));
    case Timer(timer) => EventKeeps(j.cfg, w.server, Fire(timer));
    case _ =>
  }

  lemma {:induction false} RunServerOk(j: E.Job, w: E.World, acts: seq<E.Action>, w': E.World)
    requires j.Valid() && E.WorldOk(j, w) && ServerOk(j.cfg, w.server) && E.Reaches(j, w, acts, w')
    ensures E.WorldOk(j, w') && ServerOk(j.cfg, w'.server)
    decreases |acts|
  {
    hide E.WorldOk, ServerOk, E.Can, E.Next;
    if acts != [] {
      E.StepKeeps(j, w, acts[0]);
      StepServerOk(j, w, acts[0]);
      RunServerOk(j, E.Next(j, w, acts[0]), acts[1..], w');
    }
  }

  /** The request reaches the server. */
  lemma Served(j: E.Job) returns (acts: seq<E.Action>, w: E.World)
    requires j.Valid()
    ensures E.Reaches(j, E.START, acts, w) && Waiting(j, w) && w.client.blocks == 0
    ensures var t := w.server.transfers[j.me];
            && t.id == 0 && t.retries == 0
            && if j.req.blksize.None? then C.InStep(j, w) else t.block == 0 && E.Sendable(w, Oack(j.Size()), j.me)
  {
    hide Block, E.Job.Last, E.WorldOk, ServerOk;
    var asked := E.Next(j, E.START, E.Ask);
    acts := [E.Ask, E.ToServer(Rrq(j.req))];
    w := E.Next(j, asked, acts[1]);
    E.StartOk(j);
    IdleRemembers(j.cfg);
    C.ReachesNone(j, w);
    C.ReachesTwo(j, E.START, acts[0], acts[1], [], w);
    assert acts + [] == acts;
    RunServerOk(j, E.START, acts, w);
    if j.req.blksize.None? {
      C.SentNow(w.server, w.client, j.me, Data(1, Block(j.File(), j.Size(), 1)));
    } else {
      C.SentNow(w.server, w.client, j.me, Oack(j.Size()));
    }
  }

  /** The option acknowledgement arrives and is answered. */
  lemma OackArrives(j: E.Job, w: E.World) returns (w': E.World)
    requires j.Valid() && Waiting(j, w) && w.client.blocks == 0 && E.Sendable(w, Oack(j.Size()), j.me)
    ensures E.Can(j, w, E.ToClient(Oack(j.Size()))) && w' == E.Next(j, w, E.ToClient(Oack(j.Size())))
    ensures Waiting(j, w') && w'.server == w.server && w'.client.blocks == 0 && Ack(0) in w'.client.log
  {
    hide E.WorldOk, ServerOk, E.Sendable, E.Job.Size;
    w' := E.Next(j, w, E.ToClient(Oack(j.Size())));
    E.StepKeeps(j, w, E.ToClient(Oack(j.Size())));
    assert w'.client.log[|w'.client.log| - 1] == Ack(0);
  }

  /** ... after it was lost k times. */
  lemma SettlesLossy(j: E.Job, w: E.World, k: nat) returns (acts: seq<E.Action>, w': E.World)
    requires j.Valid() && Waiting(j, w) && w.client.blocks == 0 && E.Sendable(w, Oack(j.Size()), j.me)
    requires w.server.transfers[j.me].block == 0 && w.server.transfers[j.me].retries == 0 && k <= j.cfg.maxRetries
    ensures E.Reaches(j, w, acts, w') && C.InStep(j, w') && Waiting(j, w') && w'.client.blocks == 0
    ensures w'.server.transfers[j.me].id == w.server.transfers[j.me].id && w'.server.transfers[j.me].retries == 0
    ensures Sends(w'.server.log, w.server.transfers[j.me].id, 0) == 1 + k
  {
    hide E.WorldOk, ServerOk, E.Sendable, OnlySent, Sends, Block, E.Reaches, OnAck;
    hide E.Job.Last, E.Job.File, E.Job.Size;
    var id := w.server.transfers[j.me].id;
    var lost, w0 := TimesOut(j, w, k);
    SentCount(j, w0);
    OnlyMore(w, w0, id, 0);
    StillSendable(w, w0, Oack(j.Size()), j.me);
    var w1 := OackArrives(j, w0);
    AckStartsBlock(j, w1, 0);
    w' := E.Next(j, w1, E.ToServer(Ack(0)));
    assert Sends(w'.server.log, id, 0) == Sends(w1.server.log, id, 0) by { OthersAsBefore(w1, w', id, 1, 0); }
    C.ReachesNone(j, w');
    C.ReachesTwo(j, w0, E.ToClient(Oack(j.Size())), E.ToServer(Ack(0)), [], w');
    C.ReachesMore(j, w, lost, w0, [E.ToClient(Oack(j.Size())), E.ToServer(Ack(0))] + [], w');
    acts := lost + ([E.ToClient(Oack(j.Size())), E.ToServer(Ack(0))] + []);
  }

  lemma OthersAsBefore(w: E.World, w': E.World, id: nat, b: nat, n: nat)
    requires OnlySent(w, w', id, b) && n != b
    ensures Sends(w'.server.log, id, n) == Sends(w.server.log, id, n)
  {
  }

  /** However often each packet is lost, up to maxRetries times each, there is a run on which
      it is sent exactly that many times more, the server counts the transfer and the client
      has the file. Packet 0 is the option acknowledgement. */
  lemma CompletesDespiteLosses(j: E.Job, losses: nat -> nat) returns (acts: seq<E.Action>, w: E.World)
    requires j.Valid() && j.Last() <= 65535 && forall n :: losses(n) <= j.cfg.maxRetries
    ensures E.Reaches(j, E.START, acts, w) && (j.me, 0) in w.server.completed
    ensures w.client.done && w.client.bytes == j.File()
    ensures forall n :: 1 <= n <= j.Last() ==> Sends(w.server.log, 0, n) == 1 + losses(n)
    ensures j.req.blksize.Some? ==> Sends(w.server.log, 0, 0) == 1 + losses(0)
  {
    hide E.Reaches, C.InStep, E.Job.Last, Sends, E.Sendable, E.WorldOk, ServerOk;
    var first, w1 := Served(j);
    var w2 := w1;
    if j.req.blksize.Some? {
      var more;
      more, w2 := SettlesLossy(j, w1, losses(0));
      C.ReachesMore(j, E.START, first, w1, more, w2);
      first := first + more;
    }
    var rest, w3 := FinishesLossy(j, w2, losses);
    C.ReachesMore(j, E.START, first, w2, rest, w3);
    acts, w := first + rest, w3;
    var i :| 0 <= i < |w.server.completed| && w.server.completed[i] == (j.me, 0);
    E.CompleteMeansDelivered(j, acts, w, i);
  }

  /** In whatever state a run has left the download with the due block out: as long as retries
      are left for it, it may be lost that many times more and there is still a run to the end. */
  lemma SurvivesLosses(j: E.Job, acts: seq<E.Action>, w: E.World, k: nat)
    returns (lost: seq<E.Action>, w0: E.World, rest: seq<E.Action>, w': E.World)
    requires j.Valid() && j.Last() <= 65535 && E.Reaches(j, E.START, acts, w) && C.InStep(j, w)
    requires Sends(w.server.log, w.server.transfers[j.me].id, w.client.blocks + 1) + k <= 1 + j.cfg.maxRetries
    ensures E.Reaches(j, w, lost, w0) && w0.client == w.client && E.Reaches(j, w0, rest, w')
    ensures var id, n := w.server.transfers[j.me].id, w.client.blocks + 1;
            Sends(w0.server.log, id, n) == Sends(w.server.log, id, n) + k
    ensures C.Counted(j, w') && E.Reaches(j, w, lost + rest, w')
  {
    hide E.Reaches, E.Job.Last, Sends, E.Sendable, E.WorldOk, ServerOk, C.Counted, Block, OnlySent;
    E.StartOk(j);
    IdleRemembers(j.cfg);
    RunServerOk(j, E.START, acts, w);
    SentCount(j, w);
    lost, w0 := TimesOut(j, w, k);
    SentCount(j, w0);
    OnlyMore(w, w0, w.server.transfers[j.me].id, w.client.blocks + 1);
    StaysInStep(j, w, w0);
    rest, w' := C.Finishes(j, w0);
    C.ReachesMore(j, w, lost, w0, rest, w');
  }
}
