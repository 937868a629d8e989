/** CMD_WRITE to RAM on the agent (handle_write in agent/main.c): take the block's data,
    then compare the region's CRC-32. Packets may be missing, waits may time out, and a
    block that is short of bytes stays open until either of the two ends it. */
module WriteAgent {
  import opened Bits
  import opened Framing
  import opened Options
  import opened Nor
  import Crc32

  const CMD_WRITE: Byte := 0x03
  const MAX_SIZE := 32 * 1024 * 1024
  const RAM_BASE := 0x4000_0000
  const TOP := 0x1_0000_0000

  datatype Command = Command(addr: nat, size: nat, crc: nat)

  function WritePacket(c: Command): Packet
  {
    Packet(CMD_WRITE, Crc32.Le32(c.addr) + Crc32.Le32(c.size) + Crc32.Le32(c.crc))
  }

  function CommandOf(p: Packet): Option<Command>
  {
    if p.cmd == CMD_WRITE && |p.data| >= 12
    then Some(Command(Crc32.FromLe32(p.data[..4]), Crc32.FromLe32(p.data[4..8]), Crc32.FromLe32(p.data[8..12])))
    else None
  }

  lemma CommandRoundTrip(c: Command)
    requires c.addr < TOP && c.size < TOP && c.crc < TOP
    ensures CommandOf(WritePacket(c)) == Some(c)
  {
    hide Crc32.Le32, Crc32.FromLe32;
    var d := WritePacket(c).data;
    Crc32.Le32RoundTrip(c.addr);
    Crc32.Le32RoundTrip(c.size);
    Crc32.Le32RoundTrip(c.crc);
    assert d[..4] == Crc32.Le32(c.addr) && d[4..8] == Crc32.Le32(c.size) && d[8..12] == Crc32.Le32(c.crc);
  }

  /** What the agent sees: a packet, or a wait that ran out. */
  datatype Event = Arrive(p: Packet) | Quiet

  /** RAM is everything from RAM_BASE to the top of the 32-bit address space. */
  predicate IsRam(ram: seq<Byte>)
  {
    |ram| == TOP - RAM_BASE
  }

  predicate Accepts(c: Command)
  {
    c.size != 0 && c.size <= MAX_SIZE && c.addr >= RAM_BASE && c.addr + c.size < TOP
  }

  function Region(ram: seq<Byte>, c: Command): seq<Byte>
    requires IsRam(ram) && Accepts(c)
  {
    ram[c.addr - RAM_BASE..c.addr - RAM_BASE + c.size]
  }

  // ---- One packet at a time ----------------------------------------------------------------

  /** A block in reception: its command and the bytes taken so far. */
  datatype Open = Open(c: Command, got: nat)

  /** The agent between two packets: its RAM, and the block that handle_write is waiting
      in, if any. */
  datatype Device = Device(ram: seq<Byte>, open: Option<Open>)

  predicate Sound(d: Device)
  {
    IsRam(d.ram) && (d.open.Some? ==> Accepts(d.open.value.c) && d.open.value.got < d.open.value.c.size)
  }

  /** The new state and the status bytes of the replies. */
  datatype Turn = Turn(device: Device, replies: seq<Byte>)

  function Verdict(ram: seq<Byte>, c: Command): Byte
    requires IsRam(ram) && Accepts(c)
  {
    if Crc32.Crc(0, Region(ram, c)) != c.crc then ACK_CRC_ERROR else ACK_OK
  }

  /** Data for the open block: taken up to its size, and judged when it is complete. */
  function Take(d: Device, bytes: seq<Byte>): (t: Turn)
    requires Sound(d) && d.open.Some? && bytes != []
    ensures Sound(t.device)
  {
    var o := d.open.value;
    var n := if |bytes| <= o.c.size - o.got then |bytes| else o.c.size - o.got;
    var ram := Splice(d.ram, o.c.addr - RAM_BASE + o.got, bytes[..n]);
    if o.got + n < o.c.size then Turn(Device(ram, Some(Open(o.c, o.got + n))), [])
    else Turn(Device(ram, None), [Verdict(ram, o.c)])
  }

  /** Idle, the agent serves commands; with a block open it only takes data, and a wait that
      runs out (or a packet of command 0, which looks the same) closes the block. */
  function OnEvent(d: Device, e: Event): (t: Turn)
    requires Sound(d)
    ensures Sound(t.device)
  {
    var timeout := e.Quiet? || e.p.cmd == 0;
    match d.open
    case None =>
      if timeout then Turn(d, [])
      else (match CommandOf(e.p)
            case None => Turn(d, [ACK_CRC_ERROR])
            case Some(c) =>
              if Accepts(c) then Turn(d.(open := Some(Open(c, 0))), [ACK_OK]) else Turn(d, [ACK_FLASH_ERROR]))
    case Some(_) =>
      if timeout then Turn(d.(open := None), [ACK_FLASH_ERROR])
      else if e.p.cmd == RSP_DATA && |e.p.data| > 2 then Take(d, e.p.data[2..])
      else Turn(d, [])
  }

  lemma OpenTakes(d: Device, e: Event)
    requires Sound(d) && d.open.Some?
    ensures OnEvent(d, e)
         == if e.Quiet? || e.p.cmd == 0 then Turn(d.(open := None), [ACK_FLASH_ERROR])
            else if e.p.cmd == RSP_DATA && |e.p.data| > 2 then Take(d, e.p.data[2..])
            else Turn(d, [])
  {
    hide Take, Sound, CommandOf;
  }

  /** Everything that arrives, in order. */
  function Serve(d: Device, events: seq<Event>): (t: Turn)
    requires Sound(d)
    ensures Sound(t.device)
    decreases |events|
  {
    if events == [] then Turn(d, [])
    else
      var t := OnEvent(d, events[0]);
      var u := Serve(t.device, events[1..]);
      Turn(u.device, t.replies + u.replies)
  }

  lemma {:induction false} ServeAppend(d: Device, x: seq<Event>, y: seq<Event>)
    requires Sound(d)
    ensures var t := Serve(d, x);
            var u := Serve(t.device, y);
            Serve(d, x + y) == Turn(u.device, t.replies + u.replies)
    decreases |x|
  {
    hide OnEvent, Sound;
    if x == [] {
      assert x + y == y;
    } else {
      assert (x + y)[0] == x[0] && (x + y)[1..] == x[1..] + y;
      ServeAppend(OnEvent(d, x[0]).device, x[1..], y);
    }
  }

  /** What an idle agent makes of a write command: error 1 if it is cut short, error 2 unless it
      names 1 byte to 32 MiB that end in RAM, and otherwise OK and a block of that command. */
  lemma CommandAnswered(d: Device, p: Packet)
    requires Sound(d) && d.open == None && p.cmd == 0x03
    ensures var t := Serve(d, [Arrive(p)]);
            if |p.data| < 12 then t == Turn(d, [0x01])
            else
              var addr, size := Crc32.FromLe32(p.data[0..4]), Crc32.FromLe32(p.data[4..8]);
              if 1 <= size <= 33554432 && 0x4000_0000 <= addr && addr + size < 0x1_0000_0000
              then t == Turn(Device(d.ram, Some(Open(Command(addr, size, Crc32.FromLe32(p.data[8..12])), 0))), [0x00])
              else t == Turn(d, [0x02])
  {
    hide Crc32.FromLe32;
    assert Serve(OnEvent(d, Arrive(p)).device, [Arrive(p)][1..]).replies == [];
    if |p.data| >= 12 { assert p.data[..4] == p.data[0..4]; }
  }

  /** Serving events from k on is `replies` and then serving the rest from d on. */
  ghost predicate Resumed(d0: Device, events: seq<Event>, k: nat, d: Device, replies: seq<Byte>, next: nat)
    requires Sound(d0) && Sound(d) && k <= |events| && next <= |events|
  {
    Serve(d0, events[k..]) == Turn(Serve(d, events[next..]).device, replies + Serve(d, events[next..]).replies)
  }

  lemma ResumedStart(d: Device, events: seq<Event>, k: nat)
    requires Sound(d) && k <= |events|
    ensures Resumed(d, events, k, d, [], k)
  {
    hide Serve, Sound;
    assert [] + Serve(d, events[k..]).replies == Serve(d, events[k..]).replies;
  }

  lemma ResumedStep(d0: Device, events: seq<Event>, k: nat, d: Device, replies: seq<Byte>, next: nat)
    requires Sound(d0) && Sound(d) && k <= |events| && next < |events| && Resumed(d0, events, k, d, replies, next)
    ensures var t := OnEvent(d, events[next]); Resumed(d0, events, k, t.device, replies + t.replies, next + 1)
  {
    hide Serve, OnEvent, Sound;
    ServeNext(d, events, next);
    var t := OnEvent(d, events[next]);
    var u := Serve(t.device, events[next + 1..]);
    assert replies + (t.replies + u.replies) == replies + t.replies + u.replies;
  }

  lemma ResumedEnd(d0: Device, events: seq<Event>, k: nat, d: Device, replies: seq<Byte>, next: nat)
    requires Sound(d0) && Sound(d) && k <= |events| && next <= |events| && Resumed(d0, events, k, d, replies, next)
    ensures Serve(d0, events[k..])
         == Turn(Serve(d, events[next..]).device, replies + Serve(d, events[next..]).replies)
  {
  }

  class Agent {
    var ram: seq<Byte>
    /** Where handle_write stands when it waits for data. */
    var open: Option<Open>

    ghost function View(): Device
      reads this
    {
      Device(ram, open)
    }

    /** One data packet in the receive loop of handle_write, and the CRC-32 behind it. */
    method TakeData(bytes: seq<Byte>) returns (replies: seq<Byte>)
      requires Sound(View()) && open.Some? && bytes != []
      modifies this
      ensures Turn(View(), replies) == Take(old(View()), bytes)
    {
      hide Crc32.Crc, Splice;
      var c, received := open.value.c, open.value.got;
      var chunk := if |bytes| <= c.size - received then |bytes| else c.size - received;
      ram := Splice(ram, c.addr - RAM_BASE + received, bytes[..chunk]);
      received := received + chunk;
      replies := [];
      open := Some(Open(c, received));
      if received == c.size {
        open := None;
        var crc := Crc32.Compute(0, Region(ram, c));
        replies := [if crc != c.crc then ACK_CRC_ERROR else ACK_OK];
      }
    }

    /** The receive loop of handle_write, from where it stands, over events[k..]; it leaves
        off when the block is closed or nothing more has arrived. */
    method Receive(events: seq<Event>, k: nat) returns (replies: seq<Byte>, next: nat)
      requires Sound(View()) && k <= |events|
      modifies this
      ensures Sound(View()) && k <= next <= |events| && (open.Some? ==> next == |events|)
      ensures Serve(old(View()), events[k..])
           == Turn(Serve(View(), events[next..]).device, replies + Serve(View(), events[next..]).replies)
    {
      hide Serve, Take, Accepts, IsRam, CommandOf, OnEvent, Resumed;
      replies, next := [], k;
      ghost var d := View();
      ResumedStart(d, events, k);
      while open.Some? && next < |events|
        invariant Sound(View()) && k <= next <= |events| && Resumed(d, events, k, View(), replies, next)
        decreases |events| - next
      {
        ResumedStep(d, events, k, View(), replies, next);
        OpenTakes(View(), events[next]);
        assert replies + [] == replies;
        var e := events[next];
        next := next + 1;
        if e.Quiet? || e.p.cmd == 0 {
          open := None;
          replies := replies + [ACK_FLASH_ERROR];
        } else if e.p.cmd == RSP_DATA && |e.p.data| > 2 {
          var more := TakeData(e.p.data[2..]);
          replies := replies + more;
        }
      }
      ResumedEnd(d, events, k, View(), replies, next);
    }

    /** handle_write, for a command found at events[k - 1]. */
    method HandleWrite(c: Command, events: seq<Event>, k: nat) returns (replies: seq<Byte>, next: nat)
      requires Sound(View()) && open == None && 0 < k <= |events|
      requires events[k - 1].Arrive? && CommandOf(events[k - 1].p) == Some(c)
      modifies this
      ensures Sound(View()) && k <= next <= |events| && (open.Some? ==> next == |events|)
      ensures Serve(old(View()), events[k - 1..])
           == Turn(Serve(View(), events[next..]).device, replies + Serve(View(), events[next..]).replies)
    {
      hide Serve;
      ServeNext(View(), events, k - 1);
      if !Accepts(c) { return [ACK_FLASH_ERROR], k; }
      open := Some(Open(c, 0));
      replies, next := Receive(events, k);
      replies := [ACK_OK] + replies;
    }

    /** The command loop, for as long as something arrives. */
    method Listen(events: seq<Event>) returns (replies: seq<Byte>)
      requires Sound(View())
      modifies this
      ensures Sound(View()) && Turn(View(), replies) == Serve(old(View()), events)
    {
      hide Sound, CommandOf, Serve;
      var k;
      assert events[0..] == events;
      replies, k := Receive(events, 0);
      while k < |events|
        invariant Sound(View()) && 0 <= k <= |events| && (open.Some? ==> k == |events|)
        invariant Serve(old(View()), events)
               == Turn(Serve(View(), events[k..]).device, replies + Serve(View(), events[k..]).replies)
        decreases |events| - k
      {
        ServeNext(View(), events, k);
        var e := events[k];
        k := k + 1;
        if e.Arrive? && e.p.cmd != 0 {
          var c := CommandOf(e.p);
          if c.None? {
            replies := replies + [ACK_CRC_ERROR];
          } else {
            var more;
            more, k := HandleWrite(c.value, events, k);
            replies := replies + more;
          }
        }
      }
      ServeNone(View(), events[k..]);
    }

    /** A wait of handle_write runs out. */
    method Expire()
      requires Sound(View())
      modifies this
      ensures Sound(View()) && View() == old(View()).(open := None)
    {
      open := None;
    }
  }

  lemma ServeNext(d: Device, events: seq<Event>, k: nat)
    requires Sound(d) && k < |events|
    ensures var t := OnEvent(d, events[k]);
            var u := Serve(t.device, events[k + 1..]);
            Serve(d, events[k..]) == Turn(u.device, t.replies + u.replies)
  {
    hide OnEvent, Sound;
    assert events[k..][0] == events[k] && events[k..][1..] == events[k + 1..];
  }

  lemma ServeNone(d: Device, events: seq<Event>)
    requires Sound(d) && events == []
    ensures Serve(d, events) == Turn(d, [])
  {
  }

  // ---- What arrives and what is acknowledged ---------------------------------------------

  function CommandIn(e: Event): seq<Command>
  {
    if e.Arrive? && CommandOf(e.p).Some? then [CommandOf(e.p).value] else []
  }

  /** The write commands among the events. */
  function Commands(events: seq<Event>): seq<Command>
    decreases |events|
  {
    if events == [] then [] else CommandIn(events[0]) + Commands(events[1..])
  }

  function Oks(replies: seq<Byte>): nat
    decreases |replies|
  {
    if replies == [] then 0 else (if replies[0] == ACK_OK then 1 else 0) + Oks(replies[1..])
  }

  lemma {:induction false} OksAppend(a: seq<Byte>, b: seq<Byte>)
    ensures Oks(a + b) == Oks(a) + Oks(b)
    decreases |a|
  {
    if a == [] {
      assert a + b == b;
    } else {
      assert (a + b)[1..] == a[1..] + b;
      OksAppend(a[1..], b);
    }
  }

  lemma OksOf(b: Byte)
    ensures Oks([b]) == if b == ACK_OK then 1 else 0
  {
    assert [b][1..] == [];
  }

  /** The command of the open block. */
  function Opened(d: Device): (cs: seq<Command>)
    ensures |cs| <= 1
  {
    if d.open.Some? then [d.open.value.c] else []
  }

  /** One event: at most two OKs for a command, one of them owed while its block is open.
      And when it is all of them, the command was taken up, or the block was completed
      with the right CRC-32, or nothing changed. */
  lemma EventOks(d: Device, e: Event)
    requires Sound(d)
    ensures var t := OnEvent(d, e);
            var got, due := Oks(t.replies) + |Opened(t.device)|, |Opened(d)| + 2 * |CommandIn(e)|;
            && got <= due
            && (got == due ==>
                  || Opened(t.device) == Opened(d) + CommandIn(e)
                  || (CommandIn(e) == [] && Opened(t.device) == [] && AllHold(t.device.ram, Opened(d))))
  {
    hide Oks, Crc32.Crc, Splice, Accepts, Region, IsRam;
    OksOf(ACK_OK);
    OksOf(ACK_CRC_ERROR);
    OksOf(ACK_FLASH_ERROR);
    NoOks();
    if d.open.Some? && e.Arrive? && e.p.cmd == RSP_DATA && |e.p.data| > 2 { TakeOks(d, e.p.data[2..]); }
  }

  lemma NoOks()
    ensures Oks([]) == 0
  {
  }

  lemma TakeOks(d: Device, bytes: seq<Byte>)
    requires Sound(d) && d.open.Some? && bytes != []
    ensures var t := Take(d, bytes);
            && Oks(t.replies) + |Opened(t.device)| <= 1
            && (Oks(t.replies) + |Opened(t.device)| == 1 ==>
                  Opened(t.device) == Opened(d) || (Opened(t.device) == [] && AllHold(t.device.ram, Opened(d))))
  {
    hide Oks, Crc32.Crc, Splice;
    OksOf(ACK_OK);
    OksOf(ACK_CRC_ERROR);
    NoOks();
  }

  /** At most two OKs for every command that arrived, and one for the block that was open. */
  lemma {:induction false} OksBounded(d: Device, events: seq<Event>)
    requires Sound(d)
    ensures var t := Serve(d, events);
            Oks(t.replies) + |Opened(t.device)| <= |Opened(d)| + 2 * |Commands(events)|
    decreases |events|
  {
    hide OnEvent, CommandIn, Opened, Sound, Oks;
    NoOks();
    if events != [] {
      var t := OnEvent(d, events[0]);
      EventOks(d, events[0]);
      OksBounded(t.device, events[1..]);
      OksAppend(t.replies, Serve(t.device, events[1..]).replies);
    }
  }

  // ---- Where the agent writes ----------------------------------------------------------------

  predicate Inside(c: Command, i: nat)
  {
    Accepts(c) && c.addr <= RAM_BASE + i < c.addr + c.size
  }

  /** RAM differs at most in the regions of cs. */
  ghost predicate Confined(ram: seq<Byte>, ram': seq<Byte>, cs: seq<Command>)
  {
    |ram| == |ram'| &&
    forall i :: 0 <= i < |ram| && ram'[i] != ram[i] ==> exists k :: 0 <= k < |cs| && Inside(cs[k], i)
  }

  lemma ConfinedSelf(ram: seq<Byte>, cs: seq<Command>)
    ensures Confined(ram, ram, cs)
  {
  }

  lemma ConfinedWider(ram: seq<Byte>, ram': seq<Byte>, cs: seq<Command>, ds: seq<Command>)
    requires Confined(ram, ram', cs) && forall c :: c in cs ==> c in ds
    ensures Confined(ram, ram', ds)
  {
    hide Inside;
    forall i | 0 <= i < |ram| && ram'[i] != ram[i] ensures exists k :: 0 <= k < |ds| && Inside(ds[k], i) {
      var k :| 0 <= k < |cs| && Inside(cs[k], i);
      assert cs[k] in ds;
    }
  }

  lemma ConfinedTrans(a: seq<Byte>, b: seq<Byte>, c: seq<Byte>, cs: seq<Command>)
    requires Confined(a, b, cs) && Confined(b, c, cs)
    ensures Confined(a, c, cs)
  {
    hide Inside;
  }

  lemma EventConfined(d: Device, e: Event)
    requires Sound(d)
    ensures var t := OnEvent(d, e);
            && Confined(d.ram, t.device.ram, Opened(d))
            && (forall c :: c in Opened(t.device) ==> c in Opened(d) + CommandIn(e))
  {
    hide Crc32.Crc, Confined, Splice;
    ConfinedSelf(d.ram, Opened(d));
    if d.open.Some? && e.Arrive? && e.p.cmd == RSP_DATA && |e.p.data| > 2 {
      var o, bytes := d.open.value, e.p.data[2..];
      var n := if |bytes| <= o.c.size - o.got then |bytes| else o.c.size - o.got;
      SpliceConfined(d.ram, o.c, o.got, bytes[..n]);
    }
  }

  lemma SpliceConfined(ram: seq<Byte>, c: Command, got: nat, bytes: seq<Byte>)
    requires IsRam(ram) && Accepts(c) && got + |bytes| <= c.size
    ensures Confined(ram, Splice(ram, c.addr - RAM_BASE + got, bytes), [c])
  {
    var now := Splice(ram, c.addr - RAM_BASE + got, bytes);
    forall i | 0 <= i < |ram| && now[i] != ram[i] ensures Inside([c][0], i) { }
  }

  /** Serving changes RAM only in the regions of the open block and of the commands that
      arrived. */
  lemma {:induction false} ServeConfined(d: Device, events: seq<Event>)
    requires Sound(d)
    ensures Confined(d.ram, Serve(d, events).device.ram, Opened(d) + Commands(events))
    decreases |events|
  {
    hide OnEvent, CommandIn, Opened, Sound, Confined;
    var cs := Opened(d) + Commands(events);
    ConfinedSelf(d.ram, cs);
    if events != [] {
      var t := OnEvent(d, events[0]);
      EventConfined(d, events[0]);
      ServeConfined(t.device, events[1..]);
      ConfinedWider(d.ram, t.device.ram, Opened(d), cs);
      ConfinedWider(t.device.ram, Serve(t.device, events[1..]).device.ram,
                    Opened(t.device) + Commands(events[1..]), cs);
      ConfinedTrans(d.ram, t.device.ram, Serve(t.device, events[1..]).device.ram, cs);
    }
  }

  predicate Apart(c: Command, d: Command)
  {
    c.addr + c.size <= d.addr || d.addr + d.size <= c.addr
  }

  ghost predicate Disjoint(cs: seq<Command>)
  {
    forall a, b :: 0 <= a < b < |cs| ==> Apart(cs[a], cs[b])
  }

  /** A region apart from everything written stays. */
  lemma RegionKept(ram: seq<Byte>, ram': seq<Byte>, c: Command, cs: seq<Command>)
    requires IsRam(ram) && Accepts(c) && Confined(ram, ram', cs)
    requires forall k :: 0 <= k < |cs| ==> Apart(c, cs[k])
    ensures IsRam(ram') && Region(ram', c) == Region(ram, c)
  {
    forall i | c.addr - RAM_BASE <= i < c.addr - RAM_BASE + c.size ensures ram'[i] == ram[i] { }
  }

  /** The command's region holds bytes with the command's CRC-32. */
  ghost predicate Holds(ram: seq<Byte>, c: Command)
    requires IsRam(ram)
  {
    Accepts(c) && Crc32.Crc(0, Region(ram, c)) == c.crc
  }

  ghost predicate AllHold(ram: seq<Byte>, cs: seq<Command>)
    requires IsRam(ram)
  {
    forall c :: c in cs ==> Holds(ram, c)
  }

  /** When the OKs add up to two for every command that arrived and one for the block that
      was open, every region holds its bytes, and no block is open. */
  lemma {:induction false} AllOkMeansHeld(d: Device, events: seq<Event>)
    requires Sound(d) && Disjoint(Opened(d) + Commands(events))
    requires Oks(Serve(d, events).replies) == |Opened(d)| + 2 * |Commands(events)|
    ensures Opened(Serve(d, events).device) == []
    ensures AllHold(Serve(d, events).device.ram, Opened(d) + Commands(events))
    decreases |events|
  {
    hide OnEvent, CommandIn, Opened, Sound, Holds, Confined, Apart, Oks;
    OksBounded(d, events);
    NoOks();
    if events == [] {
      assert Opened(d) + Commands(events) == [];
    } else {
      var t, later := OnEvent(d, events[0]), Commands(events[1..]);
      EventOks(d, events[0]);
      OksBounded(t.device, events[1..]);
      OksAppend(t.replies, Serve(t.device, events[1..]).replies);
      assert Opened(d) + Commands(events) == Opened(d) + CommandIn(events[0]) + later;
      if Opened(t.device) == Opened(d) + CommandIn(events[0]) {
        AllOkMeansHeld(t.device, events[1..]);
      } else {
        assert Opened(d) + CommandIn(events[0]) + later == Opened(d) + later;
        DisjointTail(Opened(d), later);
        SoundRam(t.device);
        assert Opened(t.device) + later == later;
        AllOkMeansHeld(t.device, events[1..]);
        ServeConfined(t.device, events[1..]);
        AllStillHeld(t.device.ram, Serve(t.device, events[1..]).device.ram, Opened(d), later);
      }
    }
  }

  lemma SoundRam(d: Device)
    requires Sound(d)
    ensures IsRam(d.ram)
  {
  }

  lemma DisjointTail(cs: seq<Command>, tail: seq<Command>)
    requires Disjoint(cs + tail) && |cs| <= 1
    ensures Disjoint(tail) && forall c, k :: c in cs && 0 <= k < |tail| ==> Apart(c, tail[k])
  {
    hide Apart;
    var all, n := cs + tail, |cs|;
    forall c, k | c in cs && 0 <= k < |tail| ensures Apart(c, tail[k]) { assert Apart(all[0], all[n + k]); }
    forall a, b | 0 <= a < b < |tail| ensures Apart(tail[a], tail[b]) { assert Apart(all[n + a], all[n + b]); }
  }

  lemma AllStillHeld(ram: seq<Byte>, ram': seq<Byte>, cs: seq<Command>, later: seq<Command>)
    requires IsRam(ram) && AllHold(ram, cs) && Confined(ram, ram', later)
    requires forall c, k :: c in cs && 0 <= k < |later| ==> Apart(c, later[k])
    ensures IsRam(ram') && AllHold(ram', cs)
  {
    hide Confined, Apart, Crc32.Crc;
    assert IsRam(ram') by { SameSize(ram, ram', later); }
    forall c | c in cs ensures Holds(ram', c) { StillHeld(ram, ram', c, later); }
  }

  lemma SameSize(ram: seq<Byte>, ram': seq<Byte>, cs: seq<Command>)
    requires IsRam(ram) && Confined(ram, ram', cs)
    ensures IsRam(ram')
  {
  }

  lemma StillHeld(ram: seq<Byte>, ram': seq<Byte>, c: Command, cs: seq<Command>)
    requires IsRam(ram) && Holds(ram, c) && Confined(ram, ram', cs)
    requires forall k :: 0 <= k < |cs| ==> Apart(c, cs[k])
    ensures IsRam(ram') && Holds(ram', c)
  {
    hide Crc32.Crc, Confined, Region, Apart;
    RegionKept(ram, ram', c, cs);
  }
}
