/** The TFTP server over whole runs, for every sequence of datagrams and timer
    expiries from any number of clients. */
module TftpTheorems {
  import opened Bits
  import opened Options
  import opened TftpServer
  import opened TftpTimers

  // ---- Every run ------------------------------------------------------------------

  lemma SameKeys<K, V>(m: map<K, V>, k: K, v: V)
    ensures |m[k := v]| == if k in m then |m| else |m| + 1
  {
    if k in m {
      assert m[k := v].Keys == m.Keys;
    } else {
      assert m[k := v].Keys == m.Keys + {k};
    }
    SizeOfKeys(m);
    SizeOfKeys(m[k := v]);
  }

  lemma SizeOfKeys<K, V>(m: map<K, V>)
    ensures |m| == |m.Keys|
  {
  }

  lemma FewerKeys<K, V>(m: map<K, V>, k: K)
    ensures |m - {k}| <= |m|
  {
    assert (m - {k}).Keys == m.Keys - {k};
    SizeOfKeys(m);
    SizeOfKeys(m - {k});
  }

  lemma SendKeepsSize(s: Server, a: Addr, t: Transfer, p: Packet)
    requires a in s.transfers
    ensures |SendTracked(s, a, t, p).transfers| == |SendBlock(s, a, t).transfers| == |s.transfers|
  {
    hide Block;
    var t1 := t.(block := t.block + 1);
    SameKeys(s.transfers, a, t1);
    SameKeys(s.transfers, a, t.(last := p, timer := Some(s.nextTimer)));
    var bytes := Block(t1.data, t1.blocksize, t1.block);
    var t2 := t1.(complete := t1.complete || |bytes| < t1.blocksize);
    SameKeys(s.transfers, a, t2.(last := Data(t1.block, bytes), timer := Some(s.nextTimer)));
  }

  /** At most MAX_TRANSFERS transfers live at once. */
  lemma SizeKept(cfg: Config, s: Server, e: Event)
    requires cfg.Valid() && Possible(s, e) && |s.transfers| <= MAX_TRANSFERS
    ensures |Handle(cfg, s, e).transfers| <= MAX_TRANSFERS
  {
    hide OnRrq, OnAck, OnTimer;
    match e
    case Fire(timer) => TimerSize(cfg, s, timer);
    case Receive(a, d) =>
      FewerKeys(s.transfers, a);
      match d
      case Rrq(req) => RrqSize(cfg, s, a, req);
      case Ack(n) => AckSize(s, a, n);
      case ClientError =>
      case OtherOpcode =>
      case Runt =>
  }

  lemma TimerSize(cfg: Config, s: Server, timer: nat)
    requires timer in s.armed && |s.transfers| <= MAX_TRANSFERS
    ensures |OnTimer(cfg, s, timer).transfers| <= MAX_TRANSFERS
  {
    hide SendTracked, SendBlock;
    var a := s.armed[timer].0;
    FewerKeys(s.transfers, a);
    if a in s.transfers {
      var s1 := s.(armed := s.armed - {timer});
      var t := s.transfers[a].(timer := None);
      SendKeepsSize(s1, a, t.(retries := t.retries + 1), t.last);
    }
  }

  lemma AckSize(s: Server, a: Addr, n: nat)
    requires |s.transfers| <= MAX_TRANSFERS
    ensures |OnAck(s, a, n).transfers| <= MAX_TRANSFERS
  {
    hide SendTracked, SendBlock, Disarm;
    FewerKeys(s.transfers, a);
    if a in s.transfers {
      var t := s.transfers[a];
      SendKeepsSize(s, a, t.(retries := 0), t.last);
      SendKeepsSize(s.(armed := Disarm(s.armed, t)), a, t.(retries := 0, timer := None), t.last);
    }
  }

  lemma RrqSize(cfg: Config, s: Server, a: Addr, req: Request)
    requires cfg.Valid() && |s.transfers| <= MAX_TRANSFERS
    ensures |OnRrq(cfg, s, a, req).transfers| <= MAX_TRANSFERS
  {
    hide SendTracked, SendBlock, Disarm, Negotiated;
    if req.For? && req.name in cfg.files {
      var size := Negotiated(cfg, req);
      var t := Transfer(s.nextId, cfg.files[req.name], size, 0, false, 0, Error(0), None);
      var armed := if a in s.transfers then Disarm(s.armed, s.transfers[a]) else s.armed;
      var s1 := s.(transfers := s.transfers[a := t], armed := armed, nextId := s.nextId + 1);
      SameKeys(s.transfers, a, t);
      SendKeepsSize(s1, a, t, Oack(size));
    }
  }

  lemma EventKeeps(cfg: Config, s: Server, e: Event)
    requires cfg.Valid() && ServerOk(cfg, s) && Possible(s, e)
    ensures ServerOk(cfg, Handle(cfg, s, e))
  {
    hide TimersOk, CountsOk, FilesOk, Handle;
    TimersKept(cfg, s, e);
    CountsKept(cfg, s, e);
    FilesKept(cfg, s, e);
    SizeKept(cfg, s, e);
  }

  /** es is a possible history from s to s'. */
  ghost predicate Runs(cfg: Config, s: Server, es: seq<Event>, s': Server)
    requires cfg.Valid()
    decreases |es|
  {
    if es == [] then s == s' else Possible(s, es[0]) && Runs(cfg, Handle(cfg, s, es[0]), es[1..], s')
  }

  /** In every run: one armed timer per live transfer and no other, no packet sent
      more than 1 + maxRetries times, at most MAX_TRANSFERS transfers. */
  lemma {:induction false} RunKeeps(cfg: Config, s: Server, es: seq<Event>, s': Server)
    requires cfg.Valid() && ServerOk(cfg, s) && Runs(cfg, s, es, s')
    ensures ServerOk(cfg, s')
    decreases |es|
  {
    hide ServerOk, Handle;
    if es != [] {
      EventKeeps(cfg, s, es[0]);
      RunKeeps(cfg, Handle(cfg, s, es[0]), es[1..], s');
    }
  }

  lemma EveryRun(cfg: Config, es: seq<Event>, s: Server)
    requires cfg.Valid() && Runs(cfg, IDLE, es, s)
    ensures ServerOk(cfg, s)
    ensures forall id, b :: Sends(s.log, id, b) <= 1 + cfg.maxRetries
    ensures |s.transfers| <= MAX_TRANSFERS
  {
    RunKeeps(cfg, IDLE, es, s);
  }

  /** A live transfer has an armed timer exactly when its block number still fits
      two bytes; files of at most 65535 blocks never lose theirs. */
  lemma TimedExactlyWhenNumbered(cfg: Config, es: seq<Event>, s: Server, a: Addr)
    requires cfg.Valid() && Runs(cfg, IDLE, es, s) && a in s.transfers
    ensures (exists timer :: timer in s.armed && s.armed[timer].0 == a) <==> s.transfers[a].block <= 65535
    ensures s.transfers[a].blocksize > 0
    ensures LastBlock(s.transfers[a].data, s.transfers[a].blocksize) <= 65535 ==> s.transfers[a].block <= 65535
    ensures forall x, y :: x in s.armed && y in s.armed && s.armed[x].0 == s.armed[y].0 ==> x == y
  {
    hide Sends, LastBlock;
    EveryRun(cfg, es, s);
    if s.transfers[a].block <= MAX_BLOCK {
      assert s.armed[s.transfers[a].timer.value].0 == a;
    }
  }

  // ---- What a request gets --------------------------------------------------------------

  /** The block size asked for, brought into the range from 8 to the server's largest;
      512 where none was asked for. */
  lemma NegotiatedRange(cfg: Config, req: Request)
    requires cfg.Valid() && req.For?
    ensures req.blksize == None ==> Negotiated(cfg, req) == 512
    ensures req.blksize.Some? ==>
              && 8 <= Negotiated(cfg, req) <= cfg.maxBlocksize
              && (8 <= req.blksize.value <= cfg.maxBlocksize ==> Negotiated(cfg, req) == req.blksize.value)
              && (req.blksize.value < 8 ==> Negotiated(cfg, req) == 8)
              && (req.blksize.value > cfg.maxBlocksize ==> Negotiated(cfg, req) == cfg.maxBlocksize)
  {
  }

  lemma FirstBlock(file: seq<Byte>)
    ensures Block(file, 512, 1) == if |file| <= 512 then file else file[..512]
  {
  }

  /** A request for a file there is, from a client being served or while fewer than eight are,
      gets one packet: the option acknowledgement if it named a block size, else the first
      512 bytes; a timer is armed for it and no other client's transfer changes. */
  lemma RequestServed(cfg: Config, es: seq<Event>, s: Server, a: Addr, req: Request)
    requires cfg.Valid() && Runs(cfg, IDLE, es, s) && req.For? && req.name in cfg.files
    requires a in s.transfers || |s.transfers| < 8
    ensures var s', file := Handle(cfg, s, Receive(a, Rrq(req))), cfg.files[req.name];
            && a in s'.transfers && s'.transfers[a].data == file && s'.transfers - {a} == s.transfers - {a}
            && s'.transfers[a].blocksize == Negotiated(cfg, req) && !Lives(s, a, s'.transfers[a].id)
            && (exists packet :: s'.log == s.log + [Tracked(a, s'.transfers[a].id, s'.transfers[a].block, packet)]
                  && packet == if req.blksize.Some? then Oack(Negotiated(cfg, req))
                               else Data(1, if |file| <= 512 then file else file[..512]))
            && (exists timer :: timer in s'.armed && s'.armed[timer] == (a, s'.transfers[a].id))
            && s'.completed == s.completed
  {
    hide Sends, LastBlock, Negotiated;
    EveryRun(cfg, es, s);
    NegotiatedRange(cfg, req);
    FirstBlock(cfg.files[req.name]);
    hide Block;
    var s', file := Handle(cfg, s, Receive(a, Rrq(req))), cfg.files[req.name];
    var packet := if req.blksize.Some? then Oack(Negotiated(cfg, req))
                  else Data(1, if |file| <= 512 then file else file[..512]);
    assert s'.log == s.log + [Tracked(a, s'.transfers[a].id, s'.transfers[a].block, packet)];
    assert s.nextTimer in s'.armed;
  }

  /** Everything else that asks is answered with one error, or with nothing, and disturbs no
      transfer: an unreadable request error 0, a file there is not error 1, an unknown
      operation error 4, a ninth client silence. */
  lemma OthersTurnedAway(cfg: Config, es: seq<Event>, s: Server, a: Addr, d: Datagram)
    requires cfg.Valid() && Runs(cfg, IDLE, es, s) && (d.Rrq? || d.OtherOpcode? || d.Runt?)
    requires d.Rrq? && d.req.For? && d.req.name in cfg.files ==> a !in s.transfers && |s.transfers| == 8
    ensures var s' := Handle(cfg, s, Receive(a, d));
            && s'.transfers == s.transfers && s'.armed == s.armed && s'.completed == s.completed
            && (d == Rrq(Malformed) ==> s'.log == s.log + [Plain(a, Error(0))])
            && (d == OtherOpcode ==> s'.log == s.log + [Plain(a, Error(4))])
            && (d == Runt ==> s'.log == s.log)
            && (d.Rrq? && d.req.For? && a !in s.transfers && |s.transfers| == 8 ==> s'.log == s.log)
            && (d.Rrq? && d.req.For? && (a in s.transfers || |s.transfers| < 8) ==>
                  s'.log == s.log + [Plain(a, Error(1))])
  {
    EveryRun(cfg, es, s);
  }

  /** A client's error ends its transfer, without an answer and with its timer; a client being
      served none loses nothing. */
  lemma ErrorEnds(cfg: Config, es: seq<Event>, s: Server, a: Addr)
    requires cfg.Valid() && Runs(cfg, IDLE, es, s)
    ensures var s' := Handle(cfg, s, Receive(a, ClientError));
            && s'.transfers == s.transfers - {a} && s'.log == s.log && s'.completed == s.completed
            && forall timer :: timer in s'.armed <==> timer in s.armed && s.armed[timer].0 != a
  {
    hide Sends, LastBlock;
    EveryRun(cfg, es, s);
  }

  /** An acknowledgement of any block but the one last sent changes nothing. */
  lemma OtherAckSilent(cfg: Config, es: seq<Event>, s: Server, a: Addr, n: nat)
    requires cfg.Valid() && Runs(cfg, IDLE, es, s) && n <= MAX_BLOCK
    requires a in s.transfers ==> n != s.transfers[a].block
    ensures Handle(cfg, s, Receive(a, Ack(n))) == s
  {
  }

  // ---- A duplicate acknowledgement is silent ---------------------------------------------

  /** Transfer `id` of address a, if it is still the live one, is past block b. */
  ghost predicate Past(s: Server, a: Addr, id: nat, b: nat)
  {
    s.nextId > id && (a in s.transfers && s.transfers[a].id == id ==> s.transfers[a].block >= b)
  }

  lemma PastKept(cfg: Config, s: Server, e: Event, a: Addr, id: nat, b: nat)
    requires cfg.Valid() && Possible(s, e) && Past(s, a, id, b)
    ensures Past(Handle(cfg, s, e), a, id, b)
  {
    hide Block, Disarm, Negotiated;
  }

  lemma {:induction false} PastForever(cfg: Config, s: Server, es: seq<Event>, s': Server, a: Addr, id: nat, b: nat)
    requires cfg.Valid() && Runs(cfg, s, es, s') && Past(s, a, id, b)
    ensures Past(s', a, id, b)
    decreases |es|
  {
    hide Past, Handle;
    if es != [] {
      PastKept(cfg, s, es[0], a, id, b);
      PastForever(cfg, Handle(cfg, s, es[0]), es[1..], s', a, id, b);
    }
  }

  /** Once an acknowledgement was acted on, no copy of it is acted on again as long
      as the same transfer lives: nothing is sent and nothing changes. */
  lemma DuplicateAckSilent(cfg: Config, s: Server, a: Addr, n: nat, es: seq<Event>, s': Server)
    requires cfg.Valid() && ServerOk(cfg, s) && n <= MAX_BLOCK
    requires a in s.transfers && n == s.transfers[a].block
    requires Runs(cfg, OnAck(s, a, n), es, s')
    requires a in s'.transfers && s'.transfers[a].id == s.transfers[a].id
    ensures OnAck(s', a, n) == s'
  {
    hide Sends, Block, LastBlock, Runs;
    PastForever(cfg, OnAck(s, a, n), es, s', a, s.transfers[a].id, n + 1);
  }

  // ---- Every transfer ends ----------------------------------------------------------------

  /** Acknowledgements and timeouts a transfer can still take. */
  function Budget(cfg: Config, t: Transfer): int
  {
    (MAX_BLOCK + 1 - t.block) * (cfg.maxRetries + 2) + cfg.maxRetries + 1 - t.retries
  }

  /** Whatever touches a live transfer without replacing it uses up its budget. */
  lemma BudgetSpent(cfg: Config, s: Server, e: Event, a: Addr)
    requires cfg.Valid() && ServerOk(cfg, s) && Possible(s, e)
    requires a in s.transfers && a in Handle(cfg, s, e).transfers
    requires s.transfers[a].id == Handle(cfg, s, e).transfers[a].id
    ensures var t, t' := s.transfers[a], Handle(cfg, s, e).transfers[a];
            0 <= Budget(cfg, t') && (t' == t || Budget(cfg, t') < Budget(cfg, t))
  {
    hide Sends, LastBlock, Block, Disarm, Negotiated, Budget, ServerOk;
    EventKeeps(cfg, s, e);
    TransferBounds(cfg, s, a);
    var t, t' := s.transfers[a], Handle(cfg, s, e).transfers[a];
    TransferBounds(cfg, Handle(cfg, s, e), a);
    if t' != t {
      assert (t'.block == t.block && t'.retries == t.retries + 1) || (t'.block == t.block + 1 && t'.retries == 0);
      BudgetStep(cfg, t, t');
    }
    BudgetPositive(cfg, t');
  }

  /** How often a run touches transfer `id` of address a while leaving it live. */
  ghost function Touches(cfg: Config, s: Server, es: seq<Event>, a: Addr, id: nat): nat
    requires cfg.Valid()
    decreases |es|
  {
    if es == [] || !Possible(s, es[0]) then 0
    else
      var s' := Handle(cfg, s, es[0]);
      (if Lives(s, a, id) && Lives(s', a, id) && s.transfers[a] != s'.transfers[a] then 1 else 0)
      + Touches(cfg, s', es[1..], a, id)
  }

  predicate Lives(s: Server, a: Addr, id: nat)
  {
    a in s.transfers && s.transfers[a].id == id
  }

  /** A removed transfer never comes back: its number is not given out again. */
  lemma GoneStaysGone(cfg: Config, s: Server, e: Event, a: Addr, id: nat)
    requires cfg.Valid() && Possible(s, e) && id < s.nextId && !Lives(s, a, id)
    ensures !Lives(Handle(cfg, s, e), a, id) && id < Handle(cfg, s, e).nextId
  {
    hide Block, Disarm, Negotiated;
  }

  /** In any run, however long, a transfer takes no more acknowledgements and
      timeouts than its budget at the start of the run. */
  lemma {:induction false} TouchesBounded(cfg: Config, s: Server, es: seq<Event>, a: Addr, id: nat)
    requires cfg.Valid() && ServerOk(cfg, s) && id < s.nextId
    ensures Lives(s, a, id) ==> Touches(cfg, s, es, a, id) <= Budget(cfg, s.transfers[a])
    ensures !Lives(s, a, id) ==> Touches(cfg, s, es, a, id) == 0
    decreases |es|
  {
    hide ServerOk, Budget, Handle;
    if Lives(s, a, id) {
      TransferBounds(cfg, s, a);
      BudgetPositive(cfg, s.transfers[a]);
    }
    if es != [] && Possible(s, es[0]) {
      var s' := Handle(cfg, s, es[0]);
      EventKeeps(cfg, s, es[0]);
      NumbersGrow(cfg, s, es[0]);
      if !Lives(s, a, id) { GoneStaysGone(cfg, s, es[0], a, id); }
      if Lives(s, a, id) && Lives(s', a, id) { BudgetSpent(cfg, s, es[0], a); }
      TouchesBounded(cfg, s', es[1..], a, id);
    }
  }

  lemma NumbersGrow(cfg: Config, s: Server, e: Event)
    requires cfg.Valid() && Possible(s, e)
    ensures s.nextId <= Handle(cfg, s, e).nextId
  {
    hide Block, Disarm, Negotiated;
  }

  lemma TransferBounds(cfg: Config, s: Server, a: Addr)
    requires ServerOk(cfg, s) && a in s.transfers
    ensures s.transfers[a].block <= MAX_BLOCK + 1 && s.transfers[a].retries <= cfg.maxRetries
    ensures s.transfers[a].id < s.nextId
  {
    hide Sends;
  }

  lemma BudgetPositive(cfg: Config, t: Transfer)
    requires t.block <= MAX_BLOCK + 1 && t.retries <= cfg.maxRetries
    ensures 0 <= Budget(cfg, t)
  {
    MulLe(0, MAX_BLOCK + 1 - t.block, cfg.maxRetries + 2);
  }

  lemma BudgetStep(cfg: Config, t: Transfer, t': Transfer)
    requires t.retries <= cfg.maxRetries
    requires (t'.block == t.block && t'.retries == t.retries + 1) || (t'.block == t.block + 1 && t'.retries == 0)
    ensures Budget(cfg, t') < Budget(cfg, t)
  {
    assert (MAX_BLOCK + 1 - t.block) * (cfg.maxRetries + 2)
        == (MAX_BLOCK - t.block) * (cfg.maxRetries + 2) + cfg.maxRetries + 2;
  }

  // ---- Files of more than 65535 blocks ----------------------------------------------------

  /** The client acknowledging every block in turn. */
  function AckOnwards(s: Server, a: Addr): Server
    decreases if a in s.transfers then MAX_BLOCK + 1 - s.transfers[a].block else 0
  {
    if a !in s.transfers || s.transfers[a].block > MAX_BLOCK || s.transfers[a].complete then s
    else
      AckAdvances(s, a);
      AckOnwards(OnAck(s, a, s.transfers[a].block), a)
  }

  lemma AckAdvances(s: Server, a: Addr)
    requires a in s.transfers && s.transfers[a].block <= MAX_BLOCK && !s.transfers[a].complete
    ensures var s', t := OnAck(s, a, s.transfers[a].block), s.transfers[a];
            && a in s'.transfers && s'.transfers[a].block == t.block + 1
            && s'.transfers[a].data == t.data && s'.transfers[a].blocksize == t.blocksize
  {
    hide Block;
  }

  /** A file of more than 65535 blocks that is acknowledged block by block ends up
      stranded: live, not complete, and with no timer. */
  lemma {:induction false} TooLongStrands(s: Server, a: Addr)
    requires TimersOk(s) && FilesOk(s) && a in s.transfers && s.transfers[a].blocksize > 0
    requires LastBlock(s.transfers[a].data, s.transfers[a].blocksize) > 65535
    ensures var s' := AckOnwards(s, a);
            && a in s'.transfers && Stranded(s'.transfers[a]) && !s'.transfers[a].complete
            && (forall timer :: timer in s'.armed ==> s'.armed[timer].0 != a)
    decreases MAX_BLOCK + 1 - s.transfers[a].block
  {
    hide Block, LastBlock, OnAck;
    if s.transfers[a].block <= MAX_BLOCK {
      AckAdvances(s, a);
      AckTimers(s, a, s.transfers[a].block);
      AckFiles(s, a, s.transfers[a].block);
      TooLongStrands(OnAck(s, a, s.transfers[a].block), a);
    }
  }

  ghost predicate Revives(e: Event, a: Addr)
  {
    e.Receive? && e.a == a && (e.d.Rrq? || e.d.ClientError?)
  }

  lemma StrandedStays(cfg: Config, s: Server, a: Addr, e: Event)
    requires cfg.Valid() && TimersOk(s) && Possible(s, e) && a in s.transfers && Stranded(s.transfers[a])
    requires !Revives(e, a)
    ensures a in Handle(cfg, s, e).transfers && Handle(cfg, s, e).transfers[a] == s.transfers[a]
  {
    hide Block, Disarm, Negotiated;
  }

  /** Nothing but a new request or an error from the same client revives it: through every
      run without one the transfer stays as it is. */
  lemma {:induction false} StrandedForGood(cfg: Config, s: Server, a: Addr, es: seq<Event>, s': Server)
    requires cfg.Valid() && TimersOk(s) && Runs(cfg, s, es, s') && a in s.transfers && Stranded(s.transfers[a])
    requires forall i :: 0 <= i < |es| ==> !Revives(es[i], a)
    ensures a in s'.transfers && s'.transfers[a] == s.transfers[a]
    decreases |es|
  {
    hide TimersOk, Handle, Possible, Revives, Stranded;
    if es != [] {
      StrandedStays(cfg, s, a, es[0]);
      TimersKept(cfg, s, es[0]);
      StrandedForGood(cfg, Handle(cfg, s, es[0]), a, es[1..], s');
    }
  }
}
