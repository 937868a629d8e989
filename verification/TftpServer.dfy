/** The recovery TFTP server (src/defib/network/tftp_server.py): one transfer per
    client address, stop-and-wait with a retransmission timer per transfer. */
module TftpServer {
  import opened Bits
  import opened Options

  const DEFAULT_BLOCKSIZE := 512
  const MAX_TRANSFERS := 8
  /** Largest block number that packs into two bytes. */
  const MAX_BLOCK := 65535

  type Addr = nat

  /** A parsed read request: the file it names and its blksize option, if that is
      a number. */
  datatype Request = Malformed | For(name: string, blksize: Option<int>)

  datatype Datagram = Rrq(req: Request) | Ack(n: nat) | ClientError | OtherOpcode | Runt

  datatype Packet = Data(n: nat, bytes: seq<Byte>) | Oack(blksize: nat) | Error(code: nat)

  datatype Sent = Tracked(to: Addr, id: nat, block: nat, packet: Packet) | Plain(to: Addr, packet: Packet)

  /** `id` stands for the identity of the transfer object. */
  datatype Transfer = Transfer(id: nat, data: seq<Byte>, blocksize: nat, block: nat, complete: bool,
                               retries: nat, last: Packet, timer: Option<nat>)

  /** `files` is the outcome of file resolution for every name. */
  datatype Config = Config(files: map<string, seq<Byte>>, maxRetries: nat, maxBlocksize: nat)
  {
    predicate Valid()
    {
      8 <= maxBlocksize <= 65464
    }
  }

  datatype Server = Server(transfers: map<Addr, Transfer>, armed: map<nat, (Addr, nat)>,
                           nextTimer: nat, nextId: nat, log: seq<Sent>, completed: seq<(Addr, nat)>)

  /** RFC 2348 negotiation: the request clamped to what the server allows. */
  function Negotiated(cfg: Config, req: Request): nat
    requires req.For? && cfg.Valid()
  {
    match req.blksize
    case None => DEFAULT_BLOCKSIZE
    case Some(want) =>
      var capped := if want < cfg.maxBlocksize then want else cfg.maxBlocksize;
      if capped < 8 then 8 else capped
  }

  /** Block n of a file, counted from 1; empty past the end. */
  function Block(data: seq<Byte>, size: nat, n: nat): (b: seq<Byte>)
    requires n > 0
    ensures |b| <= size
  {
    var lo := (n - 1) * size;
    if lo >= |data| then [] else if lo + size <= |data| then data[lo..lo + size] else data[lo..]
  }

  // ---- The server's state changes ---------------------------------------------------

  function Disarm(armed: map<nat, (Addr, nat)>, t: Transfer): map<nat, (Addr, nat)>
  {
    match t.timer
    case None => armed
    case Some(timer) => armed - {timer}
  }

  /** Send a packet the client must acknowledge and arm the transfer's timer. */
  function SendTracked(s: Server, a: Addr, t: Transfer, p: Packet): Server
  {
    s.(transfers := s.transfers[a := t.(last := p, timer := Some(s.nextTimer))],
       armed := Disarm(s.armed, t)[s.nextTimer := (a, t.id)],
       nextTimer := s.nextTimer + 1,
       log := s.log + [Tracked(a, t.id, t.block, p)])
  }

  /** The next data block. A block number that does not fit two bytes raises after
      it was counted: nothing is sent and no timer is armed. */
  function SendBlock(s: Server, a: Addr, t: Transfer): Server
  {
    var t1 := t.(block := t.block + 1);
    if t1.block > MAX_BLOCK then s.(transfers := s.transfers[a := t1])
    else
      var bytes := Block(t1.data, t1.blocksize, t1.block);
      SendTracked(s, a, t1.(complete := t1.complete || |bytes| < t1.blocksize), Data(t1.block, bytes))
  }

  function OnRrq(cfg: Config, s: Server, a: Addr, req: Request): Server
    requires cfg.Valid()
  {
    if req.Malformed? then s.(log := s.log + [Plain(a, Error(0))])
    else if a !in s.transfers && |s.transfers| >= MAX_TRANSFERS then s
    else if req.name !in cfg.files then s.(log := s.log + [Plain(a, Error(1))])
    else
      var size := Negotiated(cfg, req);
      var t := Transfer(s.nextId, cfg.files[req.name], size, 0, false, 0, Error(0), None);
      var armed := if a in s.transfers then Disarm(s.armed, s.transfers[a]) else s.armed;
      var s1 := s.(transfers := s.transfers[a := t], armed := armed, nextId := s.nextId + 1);
      if req.blksize.Some? then SendTracked(s1, a, t, Oack(size)) else SendBlock(s1, a, t)
  }

  function OnAck(s: Server, a: Addr, n: nat): Server
  {
    if a !in s.transfers then s
    else
      var t := s.transfers[a];
      if n == 0 && t.block == 0 then SendBlock(s, a, t.(retries := 0))
      else if n != t.block then s
      else
        var s1 := s.(armed := Disarm(s.armed, t));
        if t.complete then s1.(transfers := s.transfers - {a}, completed := s.completed + [(a, t.id)])
        else SendBlock(s1, a, t.(retries := 0, timer := None))
  }

  function OnError(s: Server, a: Addr): Server
  {
    if a !in s.transfers then s
    else s.(armed := Disarm(s.armed, s.transfers[a]), transfers := s.transfers - {a})
  }

  function OnDatagram(cfg: Config, s: Server, a: Addr, d: Datagram): Server
    requires cfg.Valid()
  {
    match d
    case Rrq(req) => OnRrq(cfg, s, a, req)
    case Ack(n) => OnAck(s, a, n)
    case ClientError => OnError(s, a)
    case OtherOpcode => s.(log := s.log + [Plain(a, Error(4))])
    case Runt => s
  }

  /** A timer fires: resend the last packet, or give up after maxRetries resends. */
  function OnTimer(cfg: Config, s: Server, timer: nat): Server
    requires timer in s.armed
  {
    var (a, id) := s.armed[timer];
    var s1 := s.(armed := s.armed - {timer});
    if a !in s.transfers || s.transfers[a].id != id then s1
    else
      var t := s.transfers[a].(timer := None);
      if t.retries >= cfg.maxRetries then s1.(transfers := s.transfers - {a})
      else SendTracked(s1, a, t.(retries := t.retries + 1), t.last)
  }

  datatype Event = Receive(a: Addr, d: Datagram) | Fire(timer: nat)

  /** Acknowledgement numbers are two bytes on the wire. */
  predicate Possible(s: Server, e: Event)
  {
    match e
    case Receive(_, d) => d.Ack? ==> d.n <= MAX_BLOCK
    case Fire(timer) => timer in s.armed
  }

  function Handle(cfg: Config, s: Server, e: Event): Server
    requires cfg.Valid() && Possible(s, e)
  {
    match e
    case Receive(a, d) => OnDatagram(cfg, s, a, d)
    case Fire(timer) => OnTimer(cfg, s, timer)
  }

  const IDLE := Server(map[], map[], 0, 0, [], [])

  // ---- The server object -------------------------------------------------------------

  class Protocol {
    const cfg: Config
    var transfers: map<Addr, Transfer>
    var armed: map<nat, (Addr, nat)>
    var nextTimer: nat
    var nextId: nat
    var log: seq<Sent>
    var completed: seq<(Addr, nat)>

    ghost function View(): Server
      reads this
    {
      Server(transfers, armed, nextTimer, nextId, log, completed)
    }

    constructor (cfg: Config)
      ensures this.cfg == cfg && View() == IDLE
    {
      this.cfg := cfg;
      transfers, armed, nextTimer, nextId, log, completed := map[], map[], 0, 0, [], [];
    }

    method CancelTimer(a: Addr)
      requires a in transfers
      modifies this
      ensures View() == old(View()).(armed := Disarm(old(armed), old(transfers[a])),
                                     transfers := old(transfers)[a := old(transfers[a]).(timer := None)])
    {
      var t := transfers[a];
      if t.timer.Some? { armed := armed - {t.timer.value}; }
      transfers := transfers[a := t.(timer := None)];
    }

    method SendWithTimer(a: Addr, p: Packet)
      requires a in transfers
      modifies this
      ensures View() == SendTracked(old(View()), a, old(transfers[a]), p)
    {
      transfers := transfers[a := transfers[a].(last := p)];
      log := log + [Tracked(a, transfers[a].id, transfers[a].block, p)];
      CancelTimer(a);
      armed := armed[nextTimer := (a, transfers[a].id)];
      transfers := transfers[a := transfers[a].(timer := Some(nextTimer))];
      nextTimer := nextTimer + 1;
    }

    /** _send_data_block; `raised` is struct.error from a block number above 65535. */
    method SendDataBlock(a: Addr) returns (raised: bool)
      requires a in transfers
      modifies this
      ensures View() == SendBlock(old(View()), a, old(transfers[a]))
      ensures raised <==> old(transfers[a]).block >= MAX_BLOCK
    {
      var t := transfers[a].(block := transfers[a].block + 1);
      transfers := transfers[a := t];
      if t.block > MAX_BLOCK { return true; }
      var bytes := Block(t.data, t.blocksize, t.block);
      SendWithTimer(a, Data(t.block, bytes));
      if |bytes| < t.blocksize { transfers := transfers[a := transfers[a].(complete := true)]; }
      raised := false;
    }

    method HandleRrq(a: Addr, req: Request)
      requires cfg.Valid()
      modifies this
      ensures View() == OnRrq(cfg, old(View()), a, req)
    {
      if req.Malformed? { log := log + [Plain(a, Error(0))]; return; }
      if a !in transfers && |transfers| >= MAX_TRANSFERS { return; }
      if req.name !in cfg.files { log := log + [Plain(a, Error(1))]; return; }
      var size := Negotiated(cfg, req);
      if a in transfers { CancelTimer(a); }
      transfers := transfers[a := Transfer(nextId, cfg.files[req.name], size, 0, false, 0, Error(0), None)];
      nextId := nextId + 1;
      if req.blksize.Some? { SendWithTimer(a, Oack(size)); } else { var _ := SendDataBlock(a); }
    }

    method HandleAck(a: Addr, n: nat)
      modifies this
      ensures View() == OnAck(old(View()), a, n)
    {
      if a !in transfers { return; }
      if n == 0 && transfers[a].block == 0 {
        transfers := transfers[a := transfers[a].(retries := 0)];
        var _ := SendDataBlock(a);
        return;
      }
      if n == transfers[a].block {
        transfers := transfers[a := transfers[a].(retries := 0)];
        CancelTimer(a);
        if transfers[a].complete {
          completed := completed + [(a, transfers[a].id)];
          transfers := transfers - {a};
          return;
        }
        var _ := SendDataBlock(a);
      }
    }

    method HandleError(a: Addr)
      modifies this
      ensures View() == OnError(old(View()), a)
    {
      if a in transfers {
        CancelTimer(a);
        transfers := transfers - {a};
      }
    }

    /** datagram_received: the dispatch by opcode. */
    method DatagramReceived(a: Addr, d: Datagram)
      requires cfg.Valid()
      modifies this
      ensures View() == OnDatagram(cfg, old(View()), a, d)
    {
      hide OnRrq, OnAck, OnError;
      match d
      case Rrq(req) => HandleRrq(a, req);
      case Ack(n) => HandleAck(a, n);
      case ClientError => HandleError(a);
      case OtherOpcode => log := log + [Plain(a, Error(4))];
      case Runt =>
    }

    method Retransmit(timer: nat)
      requires timer in armed
      modifies this
      ensures View() == OnTimer(cfg, old(View()), timer)
    {
      var (a, id) := armed[timer];
      armed := armed - {timer};
      if a !in transfers || transfers[a].id != id { return; }
      transfers := transfers[a := transfers[a].(timer := None)];
      if transfers[a].retries >= cfg.maxRetries {
        transfers := transfers - {a};
        return;
      }
      transfers := transfers[a := transfers[a].(retries := transfers[a].retries + 1)];
      SendWithTimer(a, transfers[a].last);
    }
  }
}
