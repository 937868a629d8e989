/** The TFTP server against a client that follows RFC 1350 (with RFC 2347 option
    acknowledgement) over a network that loses, duplicates and reorders: any
    datagram ever sent can arrive at any time, any number of times, or never. */
module TftpEndToEnd {
  import opened Bits
  import opened Options
  import opened TftpServer
  import opened TftpTimers
  import opened Tiling

  /** One download: which client address, what it asks for. */
  datatype Job = Job(cfg: Config, me: Addr, req: Request)
  {
    predicate Valid()
    {
      cfg.Valid() && req.For? && req.name in cfg.files
    }

    function File(): seq<Byte>
      requires Valid()
    {
      cfg.files[req.name]
    }

    function Size(): (b: nat)
      requires Valid()
      ensures b >= 8
    {
      Negotiated(cfg, req)
    }

    function Last(): nat
      requires Valid()
    {
      LastBlock(File(), Size())
    }
  }

  /** `blocks` received so far, their bytes, the block size believed in, whether a
      short block ended the file, and everything the client has sent. */
  datatype Client = Client(blocks: nat, bytes: seq<Byte>, size: nat, done: bool, log: seq<Datagram>)

  datatype World = World(server: Server, client: Client)

  datatype Action =
    | Ask                       // the client sends, or resends, its read request
    | Reack                     // the client resends its last acknowledgement
    | ToServer(d: Datagram)     // a copy of something the client sent arrives
    | ToClient(p: Packet)       // a copy of something the server sent arrives
    | Stranger(a: Addr, d: Datagram)
    | Timer(timer: nat)

  predicate Sendable(w: World, p: Packet, me: Addr)
  {
    exists i :: 0 <= i < |w.server.log| && w.server.log[i].to == me && w.server.log[i].packet == p
  }

  predicate Can(j: Job, w: World, act: Action)
  {
    match act
    case Ask => true
    case Reack => w.client.blocks > 0
    case ToServer(d) => d in w.client.log
    case ToClient(p) => Sendable(w, p, j.me)
    case Stranger(a, d) => a != j.me && (d.Ack? ==> d.n <= MAX_BLOCK)
    case Timer(timer) => timer in w.server.armed
  }

  /** RFC 1350 receiver: take the next block and acknowledge it; acknowledge an old
      one again; answer an option acknowledgement with block 0. */
  function OnPacket(c: Client, p: Packet): Client
  {
    match p
    case Data(n, bytes) =>
      if n == c.blocks + 1 && !c.done
      then c.(blocks := n, bytes := c.bytes + bytes, done := |bytes| < c.size, log := c.log + [Ack(n)])
      else if n <= c.blocks then c.(log := c.log + [Ack(n)])
      else c
    case Oack(size) =>
      if c.blocks == 0 then c.(size := size, log := c.log + [Ack(0)]) else c
    case Error(_) => c
  }

  function Next(j: Job, w: World, act: Action): World
    requires j.Valid() && Can(j, w, act)
  {
    match act
    case Ask => w.(client := w.client.(log := w.client.log + [Rrq(j.req)]))
    case Reack => w.(client := w.client.(log := w.client.log + [Ack(w.client.blocks)]))
    case ToServer(d) => w.(server := OnDatagram(j.cfg, w.server, j.me, d))
    case ToClient(p) => w.(client := OnPacket(w.client, p))
    case Stranger(a, d) => w.(server := OnDatagram(j.cfg, w.server, a, d))
    case Timer(timer) => w.(server := OnTimer(j.cfg, w.server, timer))
  }

  const START := World(IDLE, Client(0, [], DEFAULT_BLOCKSIZE, false, []))

  ghost predicate Reaches(j: Job, w: World, acts: seq<Action>, w': World)
    requires j.Valid()
    decreases |acts|
  {
    if acts == [] then w == w' else Can(j, w, acts[0]) && Reaches(j, Next(j, w, acts[0]), acts[1..], w')
  }

  // ---- The invariant ------------------------------------------------------------------

  /** The client holds exactly the first `blocks` blocks of the file. */
  ghost predicate ClientOk(j: Job, c: Client)
    requires j.Valid()
  {
    && c.blocks <= j.Last() && c.blocks <= MAX_BLOCK
    && c.bytes == j.File()[..Upto(|j.File()|, j.Size(), c.blocks)]
    && (c.done <==> c.blocks == j.Last())
    && (c.blocks > 0 || j.req.blksize.None? ==> c.size == j.Size())
    && (forall d :: d in c.log ==> Says(j, c, d))
  }

  /** What the client may have sent: its request, and acknowledgements of what it
      has, none before it knows the block size. */
  predicate Says(j: Job, c: Client, d: Datagram)
    requires j.Valid()
  {
    match d
    case Rrq(req) => req == j.req
    case Ack(n) => n <= c.blocks && c.size == j.Size()
    case _ => false
  }

  /** A packet the server may have sent to this client: block n with the right bytes,
      at most one block ahead of the client. */
  predicate Fits(j: Job, c: Client, p: Packet)
    requires j.Valid()
  {
    match p
    case Data(n, bytes) =>
      && 1 <= n <= c.blocks + 1 && n <= j.Last() && n <= MAX_BLOCK
      && bytes == Block(j.File(), j.Size(), n) && c.size == j.Size()
    case Oack(size) => size == j.Size() && j.req.blksize.Some?
    case Error(_) => true
  }

  ghost predicate LogFits(j: Job, c: Client, log: seq<Sent>)
    requires j.Valid()
  {
    forall i :: 0 <= i < |log| && log[i].to == j.me ==> Fits(j, c, log[i].packet)
  }

  /** The transfer being served: this file, at most one block ahead. */
  ghost predicate TransferOk(j: Job, c: Client, t: Transfer)
    requires j.Valid()
  {
    && t.data == j.File() && t.blocksize == j.Size()
    && t.block <= c.blocks + 1 && t.block <= j.Last()
    && (t.complete <==> t.block == j.Last() && t.block <= MAX_BLOCK)
    && Fits(j, c, t.last)
    && (t.block > 0 ==> c.size == j.Size())
  }

  ghost predicate WorldOk(j: Job, w: World)
    requires j.Valid()
  {
    && ClientOk(j, w.client)
    && LogFits(j, w.client, w.server.log)
    && (j.me in w.server.transfers ==> TransferOk(j, w.client, w.server.transfers[j.me]))
    && (forall i :: 0 <= i < |w.server.completed| && w.server.completed[i].0 == j.me ==> w.client.done)
  }

  // ---- The client's steps ------------------------------------------------------------

  /** A client that has more, and has settled on the negotiated size if it has
      anything, still fits everything the server did. */
  lemma ClientGrows(j: Job, w: World, c: Client)
    requires j.Valid() && WorldOk(j, w) && ClientOk(j, c)
    requires c.blocks >= w.client.blocks && (w.client.done ==> c.done)
    requires w.client.size == j.Size() ==> c.size == j.Size()
    ensures WorldOk(j, w.(client := c))
  {
    hide Block, LastBlock, Negotiated;
  }

  lemma TakesBlock(j: Job, c: Client, n: nat)
    requires j.Valid() && ClientOk(j, c) && n == c.blocks + 1 && !c.done && c.size == j.Size()
    requires n <= j.Last() && n <= MAX_BLOCK
    ensures ClientOk(j, OnPacket(c, Data(n, Block(j.File(), j.Size(), n))))
  {
    var f, b := j.File(), j.Size();
    hide LastBlock, Negotiated, Job.File, Job.Size;
    BlockLength(f, b, n);
    assert n * b == (n - 1) * b + b;
    LastCovers(f, b);
    assert f[..Upto(|j.File()|, j.Size(), n)] == f[..Upto(|j.File()|, j.Size(), c.blocks)] + Block(f, b, n);
  }

  lemma LastCovers(f: seq<Byte>, b: nat)
    requires b > 0
    ensures LastBlock(f, b) * b >= |f|
  {
    assert |f| == |f| / b * b + |f| % b;
    assert (|f| / b + 1) * b == |f| / b * b + b;
  }

  lemma ClientReceives(j: Job, w: World, p: Packet)
    requires j.Valid() && WorldOk(j, w) && Sendable(w, p, j.me)
    ensures WorldOk(j, w.(client := OnPacket(w.client, p)))
  {
    hide Block, LastBlock, Negotiated, Upto;
    var c := w.client;
    assert Fits(j, c, p);
    match p
    case Error(_) =>
    case Oack(size) =>
      if c.blocks == 0 { ClientGrows(j, w, OnPacket(c, p)); }
    case Data(n, bytes) =>
      if n == c.blocks + 1 && !c.done {
        TakesBlock(j, c, n);
        ClientGrows(j, w, OnPacket(c, p));
      } else if n <= c.blocks {
        ClientGrows(j, w, OnPacket(c, p));
      }
  }

  lemma ClientSpeaks(j: Job, w: World, d: Datagram)
    requires j.Valid() && WorldOk(j, w) && Says(j, w.client, d)
    ensures WorldOk(j, w.(client := w.client.(log := w.client.log + [d])))
  {
    hide Block, LastBlock, Negotiated, Upto;
  }

  // ---- The server's steps ------------------------------------------------------------

  /** Only this client's entries matter. */
  lemma LogGrows(j: Job, c: Client, log: seq<Sent>, e: Sent)
    requires j.Valid() && LogFits(j, c, log) && (e.to == j.me ==> Fits(j, c, e.packet))
    ensures LogFits(j, c, log + [e])
  {
    hide Fits;
  }

  /** Everything about the server that concerns this client, except its transfer. */
  ghost predicate Around(j: Job, c: Client, s: Server)
    requires j.Valid()
  {
    && ClientOk(j, c) && LogFits(j, c, s.log)
    && (forall i :: 0 <= i < |s.completed| && s.completed[i].0 == j.me ==> c.done)
  }

  lemma SendsPacket(j: Job, c: Client, s: Server, t: Transfer, p: Packet)
    requires j.Valid() && Around(j, c, s) && TransferOk(j, c, t.(last := p))
    ensures WorldOk(j, World(SendTracked(s, j.me, t, p), c))
  {
    hide Block, LastBlock, Negotiated, Upto, ClientOk, LogFits, Disarm;
    LogGrows(j, c, s.log, Tracked(j.me, t.id, t.block, p));
  }

  /** The next block is due: the client has everything before it. */
  lemma SendsBlock(j: Job, c: Client, s: Server, t: Transfer)
    requires j.Valid() && Around(j, c, s) && TransferOk(j, c, t) && !t.complete
    requires t.block <= c.blocks && t.block <= MAX_BLOCK && c.size == j.Size()
    ensures WorldOk(j, World(SendBlock(s, j.me, t), c))
  {
    hide Block, LastBlock, Negotiated, Upto, ClientOk, LogFits, SendTracked;
    var t1 := t.(block := t.block + 1);
    if t1.block <= MAX_BLOCK {
      BlockLength(j.File(), j.Size(), t1.block);
      var bytes := Block(t1.data, t1.blocksize, t1.block);
      SendsPacket(j, c, s, t1.(complete := t1.complete || |bytes| < t1.blocksize), Data(t1.block, bytes));
    }
  }

  lemma ServerGetsRequest(j: Job, w: World)
    requires j.Valid() && WorldOk(j, w)
    ensures WorldOk(j, w.(server := OnRrq(j.cfg, w.server, j.me, j.req)))
  {
    hide Block, Upto, LogFits, SendTracked, SendBlock, Disarm;
    var c, s, a := w.client, w.server, j.me;
    if a in s.transfers || |s.transfers| < MAX_TRANSFERS {
      var t := Transfer(s.nextId, j.File(), j.Size(), 0, false, 0, Error(0), None);
      assert TransferOk(j, c, t);
      var armed := if a in s.transfers then Disarm(s.armed, s.transfers[a]) else s.armed;
      var s1 := s.(transfers := s.transfers[a := t], armed := armed, nextId := s.nextId + 1);
      if j.req.blksize.Some? { SendsPacket(j, c, s1, t, Oack(j.Size())); } else { SendsBlock(j, c, s1, t); }
    }
  }

  lemma ServerGetsAck(j: Job, w: World, n: nat)
    requires j.Valid() && WorldOk(j, w) && n <= w.client.blocks && w.client.size == j.Size()
    ensures WorldOk(j, w.(server := OnAck(w.server, j.me, n)))
  {
    assert j.Last() >= 1;
    hide Block, LastBlock, Negotiated, Upto, LogFits, SendBlock, Disarm;
    var c, s, a := w.client, w.server, j.me;
    if a in s.transfers {
      var t := s.transfers[a];
      if n == 0 && t.block == 0 {
        SendsBlock(j, c, s, t.(retries := 0));
      } else if n == t.block && !t.complete {
        SendsBlock(j, c, s.(armed := Disarm(s.armed, t)), t.(retries := 0, timer := None));
      }
    }
  }

  lemma ServerTimesOut(j: Job, w: World, timer: nat)
    requires j.Valid() && WorldOk(j, w) && timer in w.server.armed
    ensures WorldOk(j, w.(server := OnTimer(j.cfg, w.server, timer)))
  {
    hide Block, LastBlock, Negotiated, Upto, LogFits, ClientOk, Fits, Disarm;
    var c, s := w.client, w.server;
    var (a, id) := s.armed[timer];
    if a in s.transfers && s.transfers[a].id == id {
      var t := s.transfers[a].(timer := None);
      if a == j.me {
        if t.retries < j.cfg.maxRetries {
          SendsPacket(j, c, s.(armed := s.armed - {timer}), t.(retries := t.retries + 1), t.last);
        }
      } else {
        LogGrows(j, c, s.log, Tracked(a, t.id, t.block, t.last));
      }
    }
  }

  /** What other clients do leaves this client's transfer alone. */
  lemma StrangerHarmless(j: Job, w: World, a: Addr, d: Datagram)
    requires j.Valid() && WorldOk(j, w) && a != j.me
    ensures WorldOk(j, w.(server := OnDatagram(j.cfg, w.server, a, d)))
  {
    hide Block, LastBlock, Negotiated, Upto, LogFits, ClientOk, Fits, TransferOk, Disarm;
    var s' := OnDatagram(j.cfg, w.server, a, d);
    if |s'.log| > |w.server.log| {
      LogGrows(j, w.client, w.server.log, s'.log[|s'.log| - 1]);
      assert s'.log == w.server.log + [s'.log[|s'.log| - 1]];
    }
  }

  lemma StepKeeps(j: Job, w: World, act: Action)
    requires j.Valid() && WorldOk(j, w) && Can(j, w, act)
    ensures WorldOk(j, Next(j, w, act))
  {
    assert act.ToServer? ==> Says(j, w.client, act.d);
    assert Says(j, w.client, Rrq(j.req));
    assert act.Reack? ==> Says(j, w.client, Ack(w.client.blocks));
    hide WorldOk, OnRrq, OnAck, OnTimer, OnPacket;
    match act
    case Ask => ClientSpeaks(j, w, Rrq(j.req));
    case Reack => ClientSpeaks(j, w, Ack(w.client.blocks));
    case ToClient(p) => ClientReceives(j, w, p);
    case Stranger(a, d) => StrangerHarmless(j, w, a, d);
    case Timer(timer) => ServerTimesOut(j, w, timer);
    case ToServer(d) =>
      match d
      case Rrq(_) => ServerGetsRequest(j, w);
      case Ack(n) => ServerGetsAck(j, w, n);
  }

  lemma {:induction false} RunKeeps(j: Job, w: World, acts: seq<Action>, w': World)
    requires j.Valid() && WorldOk(j, w) && Reaches(j, w, acts, w')
    ensures WorldOk(j, w')
    decreases |acts|
  {
    hide WorldOk, Can, Next;
    if acts != [] {
      StepKeeps(j, w, acts[0]);
      RunKeeps(j, Next(j, w, acts[0]), acts[1..], w');
    }
  }

  lemma StartOk(j: Job)
    requires j.Valid()
    ensures WorldOk(j, START)
  {
  }

  // ---- What the protocol promises -----------------------------------------------------

  /** At every moment the client's bytes are a prefix of the file, in whole blocks. */
  lemma ClientHasPrefix(j: Job, acts: seq<Action>, w: World)
    requires j.Valid() && Reaches(j, START, acts, w)
    ensures w.client.bytes <= j.File() && w.client.bytes == j.File()[..Upto(|j.File()|, j.Size(), w.client.blocks)]
  {
    StartOk(j);
    RunKeeps(j, START, acts, w);
  }

  /** The server never sends, and never counts, more than one block ahead. */
  lemma ServerOneAhead(j: Job, acts: seq<Action>, w: World, i: nat)
    requires j.Valid() && Reaches(j, START, acts, w)
    ensures j.me in w.server.transfers ==> w.server.transfers[j.me].block <= w.client.blocks + 1
    ensures i < |w.server.log| && w.server.log[i].to == j.me && w.server.log[i].packet.Data? ==>
              w.server.log[i].packet.n <= w.client.blocks + 1
  {
    StartOk(j);
    RunKeeps(j, START, acts, w);
    if i < |w.server.log| && w.server.log[i].to == j.me { assert Fits(j, w.client, w.server.log[i].packet); }
  }

  /** When the server counts a transfer to this client complete, the client has the
      whole file, also when it is an exact multiple of the block size; and a file of
      more than 65535 blocks is never counted. */
  lemma CompleteMeansDelivered(j: Job, acts: seq<Action>, w: World, i: nat)
    requires j.Valid() && Reaches(j, START, acts, w)
    requires i < |w.server.completed| && w.server.completed[i].0 == j.me
    ensures w.client.done && w.client.bytes == j.File() && j.Last() <= 65535
  {
    StartOk(j);
    RunKeeps(j, START, acts, w);
    LastCovers(j.File(), j.Size());
    assert j.File()[..|j.File()|] == j.File();
  }
}
