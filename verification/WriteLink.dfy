/** The serial link under write_memory: packets and replies can be lost and waits can run
    out. The agent works through what arrives, and a block that is short of bytes stays
    open into the next exchange. */
module WriteLink {
  import opened Bits
  import opened Framing
  import opened Options
  import opened WriteAgent

  /** The link passes the next packet on, loses it, or stays silent long enough for the
      agent's wait to run out. */
  datatype Slot = Take | Lose | Pause

  /** Which packets the agent gets, and which of its replies the host gets. */
  datatype Plan = Plan(slots: seq<Slot>, keep: seq<bool>)

  /** Everything arrives. */
  function Arrivals(sent: seq<Packet>): (events: seq<Event>)
    ensures |events| == |sent|
  {
    seq(|sent|, i requires 0 <= i < |sent| => Arrive(sent[i]))
  }

  lemma {:induction false} ArrivalsCommands(sent: seq<Packet>)
    ensures Commands(Arrivals(sent)) == SentCommands(sent)
    decreases |sent|
  {
    hide CommandOf;
    if sent != [] {
      assert Arrivals(sent)[1..] == Arrivals(sent[1..]);
      ArrivalsCommands(sent[1..]);
    }
  }

  function Deliver(sent: seq<Packet>, plan: seq<Slot>): seq<Event>
    decreases |plan|
  {
    if plan == [] then []
    else if plan[0].Pause? then [Quiet] + Deliver(sent, plan[1..])
    else if sent == [] then Deliver(sent, plan[1..])
    else if plan[0].Take? then [Arrive(sent[0])] + Deliver(sent[1..], plan[1..])
    else Deliver(sent[1..], plan[1..])
  }

  /** The write commands among the packets sent. */
  function SentCommands(sent: seq<Packet>): seq<Command>
    decreases |sent|
  {
    if sent == [] then []
    else (if CommandOf(sent[0]).Some? then [CommandOf(sent[0]).value] else []) + SentCommands(sent[1..])
  }

  lemma {:induction false} SentAppend(a: seq<Packet>, b: seq<Packet>)
    ensures SentCommands(a + b) == SentCommands(a) + SentCommands(b)
    decreases |a|
  {
    hide CommandOf;
    if a == [] {
      assert a + b == b;
    } else {
      assert (a + b)[1..] == a[1..] + b;
      SentAppend(a[1..], b);
    }
  }

  lemma {:induction false} DataSendsNothing(sent: seq<Packet>)
    requires forall i :: 0 <= i < |sent| ==> sent[i].cmd == RSP_DATA
    ensures SentCommands(sent) == []
    decreases |sent|
  {
    if sent != [] { DataSendsNothing(sent[1..]); }
  }

  /** No more commands arrive than were sent, all of them or a selection. */
  lemma {:induction false} DeliverSub(sent: seq<Packet>, plan: seq<Slot>)
    ensures var cs := Commands(Deliver(sent, plan));
            && |cs| <= |SentCommands(sent)|
            && (|cs| == |SentCommands(sent)| ==> cs == SentCommands(sent))
            && forall c :: c in cs ==> c in SentCommands(sent)
    decreases |plan|
  {
    hide CommandOf, Commands, SentCommands;
    if plan == [] {
      NoCommands();
    } else {
      var rest := plan[1..];
      if plan[0].Pause? {
        DeliverSub(sent, rest);
        CommandsCons(Quiet, Deliver(sent, rest));
      } else if sent == [] {
        DeliverSub(sent, rest);
      } else {
        DeliverSub(sent[1..], rest);
        CommandsCons(Arrive(sent[0]), Deliver(sent[1..], rest));
        SentCons(sent);
      }
    }
  }

  lemma NoCommands()
    ensures Commands([]) == []
  {
  }

  lemma CommandsCons(e: Event, events: seq<Event>)
    ensures Commands([e] + events) == CommandIn(e) + Commands(events)
  {
    hide CommandIn;
    assert ([e] + events)[1..] == events;
  }

  lemma SentCons(sent: seq<Packet>)
    requires sent != []
    ensures SentCommands(sent)
         == (if CommandOf(sent[0]).Some? then [CommandOf(sent[0]).value] else []) + SentCommands(sent[1..])
  {
    hide CommandOf;
  }

  /** The replies that reach the host. */
  function Heard(replies: seq<Byte>, keep: seq<bool>): (h: seq<Byte>)
    ensures Oks(h) <= Oks(replies)
    decreases |replies|
  {
    if replies == [] || keep == [] then []
    else
      var rest := Heard(replies[1..], keep[1..]);
      if keep[0] then
        assert ([replies[0]] + rest)[1..] == rest;
        [replies[0]] + rest
      else rest
  }

  /** One try at blocks [first, first + blocks), and whether all their ACKs were OK. */
  datatype Attempt = Attempt(first: nat, blocks: nat, ok: bool)

  /** The last try that included block k had both OK ACKs for it. */
  ghost predicate LastOk(log: seq<Attempt>, k: nat)
    decreases |log|
  {
    log != [] &&
    var a := log[|log| - 1];
    if a.first <= k < a.first + a.blocks then a.ok else LastOk(log[..|log| - 1], k)
  }

  /** That holds of all of the first n blocks. */
  ghost predicate Acked(log: seq<Attempt>, n: nat)
  {
    forall k :: 0 <= k < n ==> LastOk(log, k)
  }

  /** A new try at blocks from `first` on. */
  lemma Tried(log: seq<Attempt>, first: nat, blocks: nat, ok: bool)
    requires Acked(log, first)
    ensures Acked(log + [Attempt(first, blocks, ok)], first)
    ensures ok ==> Acked(log + [Attempt(first, blocks, ok)], first + blocks)
  {
    hide LastOk;
    forall k | 0 <= k < first ensures LastOk(log + [Attempt(first, blocks, ok)], k) {
      LogAttempt(log, Attempt(first, blocks, ok), k);
    }
    forall k | 0 <= k < first + blocks && ok ensures LastOk(log + [Attempt(first, blocks, ok)], k) {
      LogAttempt(log, Attempt(first, blocks, ok), k);
    }
  }

  lemma LogAttempt(log: seq<Attempt>, a: Attempt, k: nat)
    ensures LastOk(log + [a], k) == if a.first <= k < a.first + a.blocks then a.ok else LastOk(log, k)
  {
    assert (log + [a])[..|log|] == log;
  }

  /** n replies, all of them OK. */
  ghost predicate AllOk(replies: seq<Byte>, n: int)
  {
    |replies| == n && forall i :: 0 <= i < n ==> replies[i] == ACK_OK
  }

  // ---- The link as a value -----------------------------------------------------------------

  /** The agent, the status bytes waiting for the host, what the link will do in each coming
      exchange (nothing bad, once this is used up), and, for each of the host's coming waits
      that runs out: of a short one, whether the agent's did too; of a long one, whether the
      agent's last reply got lost. */
  datatype Link = Link(device: Device, queue: seq<Byte>, plans: seq<Plan>, waits: seq<bool>)

  /** What the agent sees of the packets sent. */
  function Events(l: Link, sent: seq<Packet>): seq<Event>
  {
    if l.plans == [] then Arrivals(sent) else Deliver(sent, l.plans[0].slots)
  }

  /** Packets are sent, and the agent works through what arrives. */
  function Exchanged(l: Link, sent: seq<Packet>): (r: Link)
    requires Sound(l.device)
    ensures Sound(r.device)
  {
    var t := Serve(l.device, Events(l, sent));
    if l.plans == [] then l.(device := t.device, queue := l.queue + t.replies)
    else Link(t.device, l.queue + Heard(t.replies, l.plans[0].keep), l.plans[1..], l.waits)
  }

  datatype Reading = Reading(link: Link, status: Option<Byte>)

  function Whim(l: Link): bool
  {
    l.waits != [] && l.waits[0]
  }

  /** recv_response; None is its timeout. The agent gives a block up after 10 seconds, so
      that a wait of 60 outlasts it and a wait of 10 may. */
  function Read(l: Link, long: bool): (r: Reading)
    requires Sound(l.device)
    ensures Sound(r.link.device)
  {
    if l.queue != [] then Reading(l.(queue := l.queue[1..]), Some(l.queue[0]))
    else
      var l1 := l.(waits := if l.waits == [] then [] else l.waits[1..]);
      var gone := l1.(device := l.device.(open := None));
      if l.device.open == None then Reading(l1, None)
      else if long then Reading(gone, if Whim(l) then None else Some(ACK_FLASH_ERROR))
      else Reading(if Whim(l) then gone else l1, None)
  }

  datatype Acks = Acks(link: Link, ok: bool)

  /** The two ACKs of each of n blocks, up to the first that is not OK. */
  function ReadAll(l: Link, n: nat): (a: Acks)
    requires Sound(l.device)
    ensures Sound(a.link.device)
    decreases n
  {
    if n == 0 then Acks(l, true)
    else
      var x := Read(l, false);
      if x.status != Some(ACK_OK) then Acks(x.link, false)
      else
        var y := Read(x.link, true);
        if y.status != Some(ACK_OK) then Acks(y.link, false) else ReadAll(y.link, n - 1)
  }

  lemma ReadOne(l: Link, long: bool)
    requires Sound(l.device)
    ensures var r := Read(l, long);
            && r.link.plans == l.plans && r.link.device.ram == l.device.ram
            && (r.status == Some(ACK_OK) ==>
                  l.queue != [] && l.queue[0] == ACK_OK && r.link == l.(queue := l.queue[1..])
                  && Oks(l.queue) == 1 + Oks(r.link.queue))
            && (l.queue != [] && l.queue[0] == ACK_OK ==> r.status == Some(ACK_OK))
  {
  }

  /** Success takes two OKs for every block and leaves the agent as it is; a failure can at
      most find it idle. */
  lemma {:induction false} AcksRead(l: Link, n: nat)
    requires Sound(l.device)
    ensures var a := ReadAll(l, n);
            && a.link.plans == l.plans && a.link.device.ram == l.device.ram
            && (a.ok ==> Oks(l.queue) == 2 * n + Oks(a.link.queue) && a.link.device == l.device)
    ensures AllOk(l.queue, 2 * n) ==> ReadAll(l, n).ok && ReadAll(l, n).link.queue == []
    decreases n
  {
    hide Oks, Read, Sound;
    if n > 0 {
      ReadOne(l, false);
      var x := Read(l, false);
      if x.status == Some(ACK_OK) {
        ReadOne(x.link, true);
        var y := Read(x.link, true);
        if y.status == Some(ACK_OK) { AcksRead(y.link, n - 1); }
      }
    }
  }

  /** When the host stops reading, no block is open exactly when none was, or when every
      reply was OK until they gave out: behind the first of two ACKs the host's long wait
      outlasts the agent's, before it the short one may. */
  lemma {:induction false} IdleAfterReading(l: Link, n: nat)
    requires Sound(l.device)
    ensures ReadAll(l, n).link.device.open.None? <==>
              || l.device.open.None?
              || (AllOk(l.queue, |l.queue|) && |l.queue| < 2 * n && (|l.queue| % 2 == 1 || Whim(l)))
    decreases n
  {
    hide Sound;
    if n > 0 && |l.queue| >= 2 && l.queue[0] == ACK_OK && l.queue[1] == ACK_OK {
      var rest := l.(queue := l.queue[1..][1..]);
      IdleAfterReading(rest, n - 1);
      AllOkTail(l.queue);
    } else if n > 0 && l.queue != [] && l.queue[0] == ACK_OK && l.queue[1..] == [] {
      assert AllOk(l.queue, 1);
    }
  }

  lemma AllOkTail(queue: seq<Byte>)
    requires |queue| >= 2 && queue[0] == ACK_OK && queue[1] == ACK_OK
    ensures AllOk(queue, |queue|) <==> AllOk(queue[1..][1..], |queue| - 2)
  {
    var tail := queue[1..][1..];
    if AllOk(tail, |queue| - 2) {
      forall i | 0 <= i < |queue| ensures queue[i] == ACK_OK { if i >= 2 { assert tail[i - 2] == queue[i]; } }
    }
  }

  // ---- What an exchange can bring --------------------------------------------------------------

  lemma EventsSub(l: Link, sent: seq<Packet>)
    ensures var cs := Commands(Events(l, sent));
            && |cs| <= |SentCommands(sent)|
            && (|cs| == |SentCommands(sent)| ==> cs == SentCommands(sent))
            && forall c :: c in cs ==> c in SentCommands(sent)
  {
    hide Commands, SentCommands, Deliver, Arrivals;
    if l.plans == [] { ArrivalsCommands(sent); } else { DeliverSub(sent, l.plans[0].slots); }
  }

  lemma ExchangeOks(l: Link, sent: seq<Packet>)
    requires Sound(l.device)
    ensures Oks(Exchanged(l, sent).queue) <= Oks(l.queue) + Oks(Serve(l.device, Events(l, sent)).replies)
    ensures l.plans == [] ==>
              Oks(Exchanged(l, sent).queue) == Oks(l.queue) + Oks(Serve(l.device, Events(l, sent)).replies)
  {
    hide Oks, Serve, Events, Sound;
    var replies := Serve(l.device, Events(l, sent)).replies;
    OksAppend(l.queue, replies);
    if l.plans != [] { OksAppend(l.queue, Heard(replies, l.plans[0].keep)); }
  }

  /** An exchange changes RAM only in the regions of the open block and of the commands
      sent. */
  lemma ExchangeConfined(l: Link, sent: seq<Packet>)
    requires Sound(l.device)
    ensures Confined(l.device.ram, Exchanged(l, sent).device.ram, Opened(l.device) + SentCommands(sent))
  {
    hide Serve, Events, Sound, Confined, Commands, SentCommands, Opened;
    var events := Events(l, sent);
    EventsSub(l, sent);
    ServeConfined(l.device, events);
    ConfinedWider(l.device.ram, Serve(l.device, events).device.ram, Opened(l.device) + Commands(events),
                  Opened(l.device) + SentCommands(sent));
  }

  /** Data alone: an OK means that the open block was completed with its CRC-32. */
  lemma DataExchanged(l: Link, sent: seq<Packet>)
    requires Sound(l.device) && SentCommands(sent) == []
    ensures var r := Exchanged(l, sent);
            && Oks(r.queue) + |Opened(r.device)| <= Oks(l.queue) + |Opened(l.device)|
            && (Oks(r.queue) > Oks(l.queue) ==>
                  Opened(l.device) != [] && Opened(r.device) == [] && AllHold(r.device.ram, Opened(l.device)))
  {
    hide Serve, Events, Sound, Commands, SentCommands, Opened, Oks, AllHold;
    var events := Events(l, sent);
    EventsSub(l, sent);
    assert Commands(events) == [];
    OksBounded(l.device, events);
    ExchangeOks(l, sent);
    if Oks(Serve(l.device, events).replies) > 0 {
      assert Opened(l.device) + Commands(events) == Opened(l.device);
      assert Disjoint(Opened(l.device)) by { FewDisjoint(Opened(l.device)); }
      AllOkMeansHeld(l.device, events);
    }
  }

  lemma FewDisjoint(cs: seq<Command>)
    requires |cs| <= 1
    ensures Disjoint(cs)
  {
  }

  /** Packets with a command in front: a block that is still open swallows it or loses its
      second OK, so there are at most two OKs for each command sent; and with all of them,
      every region holds its bytes and no block is open. */
  lemma CommandsExchanged(l: Link, sent: seq<Packet>)
    requires Sound(l.device) && sent != [] && CommandOf(sent[0]).Some? && Disjoint(SentCommands(sent))
    ensures var r, cs := Exchanged(l, sent), SentCommands(sent);
            && Oks(r.queue) + |Opened(r.device)| <= Oks(l.queue) + 2 * |cs|
            && (Oks(r.queue) == Oks(l.queue) + 2 * |cs| ==> Opened(r.device) == [] && AllHold(r.device.ram, cs))
  {
    hide Serve, Events, Sound, Commands, SentCommands, Opened, Oks, AllHold, Disjoint, CommandOf;
    EventsBounded(l, sent);
    ExchangeOks(l, sent);
  }

  lemma EventsBounded(l: Link, sent: seq<Packet>)
    requires Sound(l.device) && sent != [] && CommandOf(sent[0]).Some? && Disjoint(SentCommands(sent))
    ensures var t, cs := Serve(l.device, Events(l, sent)), SentCommands(sent);
            && Oks(t.replies) + |Opened(t.device)| <= 2 * |cs|
            && (Oks(t.replies) == 2 * |cs| ==> Opened(t.device) == [] && AllHold(t.device.ram, cs))
  {
    hide Serve, Sound, Commands, SentCommands, Opened, Oks, AllHold, Disjoint, CommandOf;
    if l.plans != [] {
      FirstCommand(l.device, sent, l.plans[0].slots);
    } else {
      var rest := Arrivals(sent[1..]);
      assert Arrivals(sent) == [Arrive(sent[0])] + rest;
      ArrivalsCommands(sent);
      ArrivesFirst(l.device, sent, Arrivals(sent));
    }
  }

  /** All packets' commands arrive, or fewer, behind the first one. */
  lemma ArrivesFirst(d: Device, sent: seq<Packet>, events: seq<Event>)
    requires Sound(d) && sent != [] && CommandOf(sent[0]).Some? && Disjoint(SentCommands(sent))
    requires events != [] && events[0] == Arrive(sent[0]) && |Commands(events)| <= |SentCommands(sent)|
    requires |Commands(events)| == |SentCommands(sent)| ==> Commands(events) == SentCommands(sent)
    ensures var t, cs := Serve(d, events), SentCommands(sent);
            && Oks(t.replies) + |Opened(t.device)| <= 2 * |cs|
            && (Oks(t.replies) == 2 * |cs| ==> Opened(t.device) == [] && AllHold(t.device.ram, cs))
  {
    hide Serve, Sound, Commands, SentCommands, Oks, AllHold, Disjoint, CommandOf;
    OksBounded(d, events);
    if d.open.Some? {
      Swallows(d, sent[0], events);
    } else {
      assert Opened(d) + Commands(events) == Commands(events);
      if Oks(Serve(d, events).replies) == 2 * |SentCommands(sent)| { AllOkMeansHeld(d, events); }
    }
  }

  /** A command that meets an open block is not taken up. */
  lemma Swallows(d: Device, p: Packet, events: seq<Event>)
    requires Sound(d) && d.open.Some? && CommandOf(p).Some? && events != [] && events[0] == Arrive(p)
    ensures var t := Serve(d, events); Oks(t.replies) + |Opened(t.device)| < 2 * |Commands(events)|
  {
    hide Oks, Opened;
    assert OnEvent(d, events[0]) == Turn(d, []);
    hide Serve, Sound, CommandOf;
    OksBounded(d, events[1..]);
    ServeCons(d, events);
    OksAppend([], Serve(d, events[1..]).replies);
    NoOks();
  }

  lemma ServeCons(d: Device, events: seq<Event>)
    requires Sound(d) && events != []
    ensures var t := OnEvent(d, events[0]);
            var u := Serve(t.device, events[1..]);
            Serve(d, events) == Turn(u.device, t.replies + u.replies)
    ensures |Commands(events)| == |CommandIn(events[0])| + |Commands(events[1..])|
  {
    hide OnEvent, Sound, CommandIn;
  }

  lemma {:induction false} FirstCommand(d: Device, sent: seq<Packet>, plan: seq<Slot>)
    requires Sound(d) && sent != [] && CommandOf(sent[0]).Some? && Disjoint(SentCommands(sent))
    ensures var t, cs := Serve(d, Deliver(sent, plan)), SentCommands(sent);
            && Oks(t.replies) + |Opened(t.device)| <= 2 * |cs|
            && (Oks(t.replies) == 2 * |cs| ==> Opened(t.device) == [] && AllHold(t.device.ram, cs))
    decreases |plan|
  {
    hide Serve, Sound, Commands, SentCommands, Opened, Oks, AllHold, Disjoint, CommandOf, OnEvent;
    SentCons(sent);
    if plan == [] {
      ServeNone(d, []);
      NoOks();
    } else {
      var events := Deliver(sent, plan);
      if plan[0].Pause? {
        var rest := Deliver(sent, plan[1..]);
        assert events[0] == Quiet && events[1..] == rest;
        ServeCons(d, events);
        Pauses(d);
        FirstCommand(OnEvent(d, Quiet).device, sent, plan[1..]);
        OksAppend(OnEvent(d, Quiet).replies, Serve(OnEvent(d, Quiet).device, rest).replies);
      } else if plan[0].Take? {
        DeliverSub(sent, plan);
        ArrivesFirst(d, sent, events);
      } else {
        DeliverSub(sent[1..], plan[1..]);
        OksBounded(d, events);
      }
    }
  }

  lemma Pauses(d: Device)
    requires Sound(d)
    ensures Oks(OnEvent(d, Quiet).replies) == 0 && OnEvent(d, Quiet).device == d.(open := None)
  {
    OksOf(ACK_FLASH_ERROR);
  }

  /** One command alone: RAM stays, and an OK means that its block was opened, and is open
      unless a wait has run out since. */
  lemma CommandExchanged(l: Link, p: Packet, c: Command)
    requires Sound(l.device) && CommandOf(p) == Some(c)
    ensures var r := Exchanged(l, [p]);
            && r.device.ram == l.device.ram && Oks(r.queue) <= Oks(l.queue) + 1
            && (Oks(r.queue) > Oks(l.queue) ==> r.device.open == None || r.device.open == Some(Open(c, 0)))
  {
    hide Serve, Sound, Oks, CommandOf;
    ExchangeOks(l, [p]);
    if l.plans == [] {
      assert Arrivals([p]) == [Arrive(p)] + [];
      CommandThen(l.device, p, c, []);
    } else {
      CommandAlone(l.device, p, c, l.plans[0].slots);
    }
  }

  ghost predicate AllQuiet(events: seq<Event>)
  {
    forall i :: 0 <= i < |events| ==> events[i].Quiet?
  }

  lemma {:induction false} ServeQuiet(d: Device, events: seq<Event>)
    requires Sound(d) && AllQuiet(events)
    ensures var t := Serve(d, events);
            t.device.ram == d.ram && Oks(t.replies) == 0 && (t.device.open == d.open || t.device.open == None)
    decreases |events|
  {
    hide OnEvent, Sound, Oks;
    NoOks();
    if events != [] {
      Pauses(d);
      ServeQuiet(OnEvent(d, Quiet).device, events[1..]);
      OksAppend(OnEvent(d, Quiet).replies, Serve(OnEvent(d, Quiet).device, events[1..]).replies);
    }
  }

  lemma CommandThen(d: Device, p: Packet, c: Command, rest: seq<Event>)
    requires Sound(d) && CommandOf(p) == Some(c) && AllQuiet(rest)
    ensures var t := Serve(d, [Arrive(p)] + rest);
            && t.device.ram == d.ram && Oks(t.replies) <= 1
            && (Oks(t.replies) > 0 ==> t.device.open == None || t.device.open == Some(Open(c, 0)))
  {
    hide Serve, Oks, AllQuiet;
    var events := [Arrive(p)] + rest;
    assert events[0] == Arrive(p) && events[1..] == rest;
    var t := OnEvent(d, Arrive(p));
    ServeCons(d, events);
    ServeQuiet(t.device, rest);
    OksAppend(t.replies, Serve(t.device, rest).replies);
    OksOf(ACK_OK);
    OksOf(ACK_FLASH_ERROR);
    NoOks();
  }

  lemma {:induction false} NothingSent(plan: seq<Slot>)
    ensures AllQuiet(Deliver([], plan))
    decreases |plan|
  {
    if plan != [] { NothingSent(plan[1..]); }
  }

  lemma {:induction false} CommandAlone(d: Device, p: Packet, c: Command, plan: seq<Slot>)
    requires Sound(d) && CommandOf(p) == Some(c)
    ensures var t := Serve(d, Deliver([p], plan));
            && t.device.ram == d.ram && Oks(t.replies) <= 1
            && (Oks(t.replies) > 0 ==> t.device.open == None || t.device.open == Some(Open(c, 0)))
    decreases |plan|
  {
    hide Serve, Oks, Sound, CommandOf, OnEvent, AllQuiet;
    NoOks();
    if plan == [] {
      ServeNone(d, []);
    } else {
      var events, rest := Deliver([p], plan), plan[1..];
      assert [p][1..] == [];
      NothingSent(rest);
      if plan[0].Pause? {
        assert events[0] == Quiet && events[1..] == Deliver([p], rest);
        ServeCons(d, events);
        Pauses(d);
        var t := OnEvent(d, Quiet);
        CommandAlone(t.device, p, c, rest);
        OksAppend(t.replies, Serve(t.device, Deliver([p], rest)).replies);
      } else if plan[0].Take? {
        CommandThen(d, p, c, Deliver([], rest));
      } else {
        ServeQuiet(d, Deliver([], rest));
      }
    }
  }

  // ---- The session object ------------------------------------------------------------------------

  class Session {
    const agent: Agent
    var queue: seq<Byte>
    var plans: seq<Plan>
    var waits: seq<bool>
    ghost var log: seq<Attempt>

    ghost function View(): Link
      reads this, agent
    {
      Link(agent.View(), queue, plans, waits)
    }

    constructor (agent: Agent, plans: seq<Plan>, waits: seq<bool>)
      ensures this.agent == agent && View() == Link(agent.View(), [], plans, waits) && log == []
    {
      this.agent, this.queue, this.plans, this.waits, this.log := agent, [], plans, waits, [];
    }

    /** Send packets and let the agent work through what arrives. */
    method Exchange(sent: seq<Packet>)
      requires Sound(agent.View())
      modifies this`queue, this`plans, agent
      ensures Sound(agent.View()) && View() == Exchanged(old(View()), sent)
    {
      hide Sound, Serve, Arrivals, Deliver;
      if plans == [] {
        var replies := agent.Listen(Arrivals(sent));
        queue := queue + replies;
      } else {
        var plan := plans[0];
        plans := plans[1..];
        var replies := agent.Listen(Deliver(sent, plan.slots));
        queue := queue + Heard(replies, plan.keep);
      }
    }

    /** recv_response, with 10 seconds or with 60. */
    method ReadStatus(long: bool) returns (r: Option<Byte>)
      requires Sound(agent.View())
      modifies this`queue, this`waits, agent
      ensures Sound(agent.View()) && Reading(View(), r) == Read(old(View()), long)
    {
      hide Sound;
      if queue != [] {
        r, queue := Some(queue[0]), queue[1..];
        return;
      }
      var whim := waits != [] && waits[0];
      waits := if waits == [] then [] else waits[1..];
      r := None;
      if agent.open.Some? && (long || whim) {
        agent.Expire();
        if long && !whim { r := Some(ACK_FLASH_ERROR); }
      }
    }

    method Clear()
      modifies this`queue
      ensures View() == old(View()).(queue := [])
    {
      queue := [];
    }

    /** The two ACKs of each of n blocks. */
    method ReadAcks(n: nat) returns (ok: bool)
      requires Sound(agent.View())
      modifies this`queue, this`waits, agent
      ensures Sound(agent.View()) && Acks(View(), ok) == ReadAll(old(View()), n)
    {
      hide Sound, Read;
      for i := 0 to n
        invariant Sound(agent.View()) && ReadAll(View(), n - i) == ReadAll(old(View()), n)
      {
        var first := ReadStatus(false);
        if first != Some(ACK_OK) { return false; }
        var second := ReadStatus(true);
        if second != Some(ACK_OK) { return false; }
      }
      ok := true;
    }
  }
}
