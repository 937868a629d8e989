/** What every run of the TFTP server keeps: timers, retransmission counts, the
    number of transfers, and that every transfer ends. */
module TftpTimers {
  import opened Bits
  import opened Options
  import opened TftpServer

  /** A transfer whose next block number does not fit two bytes. */
  predicate Stranded(t: Transfer)
  {
    t.block > MAX_BLOCK
  }

  /** Live transfers that are not stranded and armed timers correspond one to one. */
  ghost predicate TimersOk(s: Server)
  {
    && (forall a :: a in s.transfers ==>
          if Stranded(s.transfers[a]) then s.transfers[a].timer == None
          else s.transfers[a].timer.Some? && s.transfers[a].timer.value in s.armed
               && s.armed[s.transfers[a].timer.value] == (a, s.transfers[a].id))
    && (forall timer :: timer in s.armed ==>
          && timer < s.nextTimer && s.armed[timer].0 in s.transfers
          && s.transfers[s.armed[timer].0].timer == Some(timer)
          && s.transfers[s.armed[timer].0].id == s.armed[timer].1)
  }

  /** How often block b of transfer id has been sent. */
  function Sends(log: seq<Sent>, id: nat, b: nat): nat
  {
    if log == [] then 0
    else
      var last := log[|log| - 1];
      Sends(log[..|log| - 1], id, b) + (if last.Tracked? && last.id == id && last.block == b then 1 else 0)
  }

  lemma SendsAppend(log: seq<Sent>, e: Sent, id: nat, b: nat)
    ensures Sends(log + [e], id, b) == Sends(log, id, b) + (if e.Tracked? && e.id == id && e.block == b then 1 else 0)
  {
    assert (log + [e])[..|log|] == log;
  }

  /** The current packet of a transfer was sent once plus once per retry, and no
      later one was sent at all. */
  ghost predicate CountOk(cfg: Config, log: seq<Sent>, t: Transfer)
  {
    && t.retries <= cfg.maxRetries
    && (forall b :: b > t.block ==> Sends(log, t.id, b) == 0)
    && (!Stranded(t) ==> Sends(log, t.id, t.block) == t.retries + 1)
  }

  ghost predicate LogBounded(cfg: Config, s: Server)
  {
    && (forall id, b :: Sends(s.log, id, b) <= 1 + cfg.maxRetries)
    && (forall id, b :: id >= s.nextId ==> Sends(s.log, id, b) == 0)
  }

  ghost predicate CountsOk(cfg: Config, s: Server)
  {
    && LogBounded(cfg, s)
    && (forall a :: a in s.transfers ==> s.transfers[a].id < s.nextId && CountOk(cfg, s.log, s.transfers[a]))
    && (forall a, b :: a in s.transfers && b in s.transfers && a != b ==> s.transfers[a].id != s.transfers[b].id)
  }

  /** The block count stays within the file; complete means the last block is out. */
  ghost predicate FileOk(t: Transfer)
  {
    && t.blocksize >= 8 && t.block <= MAX_BLOCK + 1 && t.block <= LastBlock(t.data, t.blocksize)
    && (t.complete <==> t.block == LastBlock(t.data, t.blocksize) && !Stranded(t))
  }

  ghost predicate FilesOk(s: Server)
  {
    forall a :: a in s.transfers ==> FileOk(s.transfers[a])
  }

  /** The number of the block that ends a file: the first one that is not full. */
  function LastBlock(data: seq<Byte>, size: nat): nat
    requires size > 0
  {
    |data| / size + 1
  }

  ghost predicate ServerOk(cfg: Config, s: Server)
  {
    && TimersOk(s) && CountsOk(cfg, s) && FilesOk(s) && |s.transfers| <= MAX_TRANSFERS
  }

  // ---- Timers --------------------------------------------------------------------

  /** The transfer handed to a send: the stored one, or one that replaces it with
      its timer already gone. */
  ghost predicate Ready(s: Server, a: Addr, t: Transfer)
  {
    && a in s.transfers
    && (forall b :: b in s.transfers && b != a ==>
          if Stranded(s.transfers[b]) then s.transfers[b].timer == None
          else s.transfers[b].timer.Some? && s.transfers[b].timer.value in s.armed
               && s.armed[s.transfers[b].timer.value] == (b, s.transfers[b].id))
    && (forall timer :: timer in s.armed ==> timer < s.nextTimer)
    && (forall timer :: timer in s.armed ==>
          if s.armed[timer].0 == a then t.timer == Some(timer)
          else s.armed[timer].0 in s.transfers && s.transfers[s.armed[timer].0].timer == Some(timer)
               && s.transfers[s.armed[timer].0].id == s.armed[timer].1)
  }

  lemma SendTrackedTimers(s: Server, a: Addr, t: Transfer, p: Packet)
    requires Ready(s, a, t) && !Stranded(t)
    requires t.timer.Some? ==> t.timer.value in s.armed ==> s.armed[t.timer.value].0 == a
    ensures TimersOk(SendTracked(s, a, t, p))
  {
  }

  lemma SendBlockTimers(s: Server, a: Addr, t: Transfer)
    requires Ready(s, a, t) && !Stranded(t) && (t.block == MAX_BLOCK ==> t.timer == None)
    requires t.timer.Some? ==> t.timer.value in s.armed ==> s.armed[t.timer.value].0 == a
    ensures TimersOk(SendBlock(s, a, t))
  {
    hide Block, SendTracked;
    var t1 := t.(block := t.block + 1);
    if t1.block <= MAX_BLOCK {
      var bytes := Block(t1.data, t1.blocksize, t1.block);
      SendTrackedTimers(s, a, t1.(complete := t1.complete || |bytes| < t1.blocksize), Data(t1.block, bytes));
    }
  }

  lemma RrqTimers(cfg: Config, s: Server, a: Addr, req: Request)
    requires cfg.Valid() && TimersOk(s)
    ensures TimersOk(OnRrq(cfg, s, a, req))
  {
    if req.For? && !(a !in s.transfers && |s.transfers| >= MAX_TRANSFERS) && req.name in cfg.files {
      var size := Negotiated(cfg, req);
      var t := Transfer(s.nextId, cfg.files[req.name], size, 0, false, 0, Error(0), None);
      var armed := if a in s.transfers then Disarm(s.armed, s.transfers[a]) else s.armed;
      var s1 := s.(transfers := s.transfers[a := t], armed := armed, nextId := s.nextId + 1);
      assert Ready(s1, a, t);
      if req.blksize.Some? { SendTrackedTimers(s1, a, t, Oack(size)); } else { SendBlockTimers(s1, a, t); }
    }
  }

  lemma AckTimers(s: Server, a: Addr, n: nat)
    requires TimersOk(s) && n <= MAX_BLOCK
    ensures TimersOk(OnAck(s, a, n))
  {
    if a in s.transfers {
      var t := s.transfers[a];
      if n == 0 && t.block == 0 {
        SendBlockTimers(s, a, t.(retries := 0));
      } else if n == t.block {
        var s1 := s.(armed := Disarm(s.armed, t));
        if !t.complete {
          assert Ready(s1, a, t.(retries := 0, timer := None));
          SendBlockTimers(s1, a, t.(retries := 0, timer := None));
        }
      }
    }
  }

  lemma TimerTimers(cfg: Config, s: Server, timer: nat)
    requires TimersOk(s) && timer in s.armed
    ensures TimersOk(OnTimer(cfg, s, timer))
  {
    var (a, id) := s.armed[timer];
    var s1 := s.(armed := s.armed - {timer});
    var t := s.transfers[a].(timer := None);
    if t.retries < cfg.maxRetries {
      assert Ready(s1, a, t.(retries := t.retries + 1));
      SendTrackedTimers(s1, a, t.(retries := t.retries + 1), t.last);
    }
  }

  /** Every event keeps the correspondence of transfers and timers. */
  lemma TimersKept(cfg: Config, s: Server, e: Event)
    requires cfg.Valid() && TimersOk(s) && Possible(s, e)
    ensures TimersOk(Handle(cfg, s, e))
  {
    match e
    case Fire(timer) => TimerTimers(cfg, s, timer);
    case Receive(a, d) =>
      match d
      case Rrq(req) => RrqTimers(cfg, s, a, req);
      case Ack(n) => AckTimers(s, a, n);
      case ClientError =>
      case OtherOpcode =>
      case Runt =>
  }

  // ---- How often a packet is sent -------------------------------------------------

  /** Everything CountsOk asks for, except that t's current packet is still to be
      sent once more. */
  ghost predicate CountsReady(cfg: Config, s: Server, a: Addr, t: Transfer)
  {
    && LogBounded(cfg, s)
    && (forall x :: x in s.transfers && x != a ==>
          s.transfers[x].id < s.nextId && s.transfers[x].id != t.id && CountOk(cfg, s.log, s.transfers[x]))
    && (forall x, y :: x in s.transfers && y in s.transfers && x != a && y != a && x != y ==>
          s.transfers[x].id != s.transfers[y].id)
    && t.id < s.nextId && t.retries <= cfg.maxRetries
    && (forall b :: b > t.block ==> Sends(s.log, t.id, b) == 0)
  }

  lemma SendsMore(log: seq<Sent>, e: Sent)
    requires e.Tracked?
    ensures forall id, b ::
              Sends(log + [e], id, b) == Sends(log, id, b) + (if id == e.id && b == e.block then 1 else 0)
  {
    forall id, b
      ensures Sends(log + [e], id, b) == Sends(log, id, b) + (if id == e.id && b == e.block then 1 else 0)
    {
      SendsAppend(log, e, id, b);
    }
  }

  lemma SendTrackedCounts(cfg: Config, s: Server, a: Addr, t: Transfer, p: Packet)
    requires CountsReady(cfg, s, a, t) && Sends(s.log, t.id, t.block) == t.retries
    ensures CountsOk(cfg, SendTracked(s, a, t, p))
  {
    hide Sends, Disarm;
    SendsMore(s.log, Tracked(a, t.id, t.block, p));
  }

  lemma SendBlockCounts(cfg: Config, s: Server, a: Addr, t: Transfer)
    requires CountsReady(cfg, s, a, t) && t.retries == 0
    ensures CountsOk(cfg, SendBlock(s, a, t))
  {
    hide Block, Sends, SendTracked;
    var t1 := t.(block := t.block + 1);
    if t1.block <= MAX_BLOCK {
      var bytes := Block(t1.data, t1.blocksize, t1.block);
      SendTrackedCounts(cfg, s, a, t1.(complete := t1.complete || |bytes| < t1.blocksize), Data(t1.block, bytes));
    }
  }

  lemma PlainCounts(cfg: Config, s: Server, a: Addr, p: Packet)
    requires CountsOk(cfg, s)
    ensures CountsOk(cfg, s.(log := s.log + [Plain(a, p)]))
  {
    forall id, b ensures Sends(s.log + [Plain(a, p)], id, b) == Sends(s.log, id, b) {
      SendsAppend(s.log, Plain(a, p), id, b);
    }
    hide Sends;
  }

  lemma RrqCounts(cfg: Config, s: Server, a: Addr, req: Request)
    requires cfg.Valid() && CountsOk(cfg, s)
    ensures CountsOk(cfg, OnRrq(cfg, s, a, req))
  {
    hide CountOk, SendTracked, SendBlock, Disarm, Negotiated;
    PlainCounts(cfg, s, a, Error(0));
    PlainCounts(cfg, s, a, Error(1));
    if req.For? && !(a !in s.transfers && |s.transfers| >= MAX_TRANSFERS) && req.name in cfg.files {
      var size := Negotiated(cfg, req);
      var t := Transfer(s.nextId, cfg.files[req.name], size, 0, false, 0, Error(0), None);
      var armed := if a in s.transfers then Disarm(s.armed, s.transfers[a]) else s.armed;
      var s1 := s.(transfers := s.transfers[a := t], armed := armed, nextId := s.nextId + 1);
      assert CountsReady(cfg, s1, a, t);
      if req.blksize.Some? { SendTrackedCounts(cfg, s1, a, t, Oack(size)); } else { SendBlockCounts(cfg, s1, a, t); }
    }
  }

  lemma AckCounts(cfg: Config, s: Server, a: Addr, n: nat)
    requires CountsOk(cfg, s) && n <= MAX_BLOCK
    ensures CountsOk(cfg, OnAck(s, a, n))
  {
    hide Sends, SendBlock, Disarm;
    if a in s.transfers {
      var t := s.transfers[a];
      if n == 0 && t.block == 0 {
        assert CountsReady(cfg, s, a, t.(retries := 0));
        SendBlockCounts(cfg, s, a, t.(retries := 0));
      } else if n == t.block {
        var s1 := s.(armed := Disarm(s.armed, t));
        if !t.complete {
          assert CountsReady(cfg, s1, a, t.(retries := 0, timer := None));
          SendBlockCounts(cfg, s1, a, t.(retries := 0, timer := None));
        }
      }
    }
  }

  lemma TimerCounts(cfg: Config, s: Server, timer: nat)
    requires TimersOk(s) && CountsOk(cfg, s) && timer in s.armed
    ensures CountsOk(cfg, OnTimer(cfg, s, timer))
  {
    hide Sends, SendTracked;
    var (a, id) := s.armed[timer];
    var s1 := s.(armed := s.armed - {timer});
    var t := s.transfers[a].(timer := None);
    if t.retries < cfg.maxRetries {
      assert CountsReady(cfg, s1, a, t.(retries := t.retries + 1));
      SendTrackedCounts(cfg, s1, a, t.(retries := t.retries + 1), t.last);
    }
  }

  lemma CountsKept(cfg: Config, s: Server, e: Event)
    requires cfg.Valid() && TimersOk(s) && CountsOk(cfg, s) && Possible(s, e)
    ensures CountsOk(cfg, Handle(cfg, s, e))
  {
    hide Sends;
    match e
    case Fire(timer) => TimerCounts(cfg, s, timer);
    case Receive(a, d) =>
      match d
      case Rrq(req) => RrqCounts(cfg, s, a, req);
      case Ack(n) => AckCounts(cfg, s, a, n);
      case ClientError =>
      case OtherOpcode => PlainCounts(cfg, s, a, Error(4));
      case Runt =>
  }

  // ---- Blocks and files ---------------------------------------------------------------

  /** The first block that is not full is the last one, also when the file is an
      exact multiple of the block size. */
  lemma BlockLength(data: seq<Byte>, size: nat, n: nat)
    requires size > 0 && 1 <= n <= LastBlock(data, size)
    ensures |Block(data, size, n)| < size <==> n == LastBlock(data, size)
    ensures (n - 1) * size <= |data|
    ensures |Block(data, size, n)| == if n == LastBlock(data, size) then |data| - (n - 1) * size else size
  {
    var q := |data| / size;
    assert |data| == q * size + |data| % size;
    MulLe(n - 1, q, size);
    if n - 1 < q {
      MulLe(n, q, size);
      assert n * size == (n - 1) * size + size;
    }
  }

  lemma SendBlockFile(s: Server, a: Addr, t: Transfer)
    requires FileOk(t) && !t.complete && !Stranded(t)
    ensures a in SendBlock(s, a, t).transfers && FileOk(SendBlock(s, a, t).transfers[a])
  {
    hide Block;
    BlockLength(t.data, t.blocksize, t.block + 1);
  }

  lemma RrqFiles(cfg: Config, s: Server, a: Addr, req: Request)
    requires cfg.Valid() && FilesOk(s)
    ensures FilesOk(OnRrq(cfg, s, a, req))
  {
    if req.For? && req.name in cfg.files {
      var size := Negotiated(cfg, req);
      var t := Transfer(s.nextId, cfg.files[req.name], size, 0, false, 0, Error(0), None);
      assert FileOk(t);
      hide FileOk, Block, Disarm;
      var armed := if a in s.transfers then Disarm(s.armed, s.transfers[a]) else s.armed;
      var s1 := s.(transfers := s.transfers[a := t], armed := armed, nextId := s.nextId + 1);
      SendBlockFile(s1, a, t);
      TimerFieldOnly(t, Oack(size), Some(s.nextTimer));
    }
  }

  lemma TimerFieldOnly(t: Transfer, p: Packet, timer: Option<nat>)
    requires FileOk(t)
    ensures FileOk(t.(last := p, timer := timer)) && FileOk(t.(retries := 0)) && FileOk(t.(retries := 0, timer := None))
    ensures FileOk(t.(timer := None, retries := t.retries + 1, last := p).(timer := timer))
  {
  }

  lemma AckFiles(s: Server, a: Addr, n: nat)
    requires FilesOk(s) && n <= MAX_BLOCK
    ensures FilesOk(OnAck(s, a, n))
  {
    if a in s.transfers {
      var t := s.transfers[a];
      assert n == t.block ==> !Stranded(t);
      assert t.block == 0 ==> !t.complete;
      hide FileOk, Block, Disarm;
      TimerFieldOnly(t, t.last, t.timer);
      if n == t.block && !t.complete {
        SendBlockFile(s, a, t.(retries := 0));
        SendBlockFile(s.(armed := Disarm(s.armed, t)), a, t.(retries := 0, timer := None));
      }
    }
  }

  lemma TimerFiles(cfg: Config, s: Server, timer: nat)
    requires FilesOk(s) && timer in s.armed
    ensures FilesOk(OnTimer(cfg, s, timer))
  {
    hide FileOk, Disarm;
    var (a, id) := s.armed[timer];
    if a in s.transfers { TimerFieldOnly(s.transfers[a], s.transfers[a].last, Some(s.nextTimer)); }
  }

  /** Each event keeps every transfer's block count within its file. */
  lemma FilesKept(cfg: Config, s: Server, e: Event)
    requires cfg.Valid() && FilesOk(s) && Possible(s, e)
    ensures FilesOk(Handle(cfg, s, e))
  {
    hide FileOk;
    match e
    case Fire(timer) => TimerFiles(cfg, s, timer);
    case Receive(a, d) =>
      match d
      case Rrq(req) => RrqFiles(cfg, s, a, req);
      case Ack(n) => AckFiles(s, a, n);
      case ClientError =>
      case OtherOpcode =>
      case Runt =>
  }
}
