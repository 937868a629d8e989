/** One serial line to the V500 boot ROM: what becomes of transmissions and answers, what
    _send_frame_wait_ack makes of them, and when its True can be believed. */
module V500Line {
  import opened Bits
  import opened V500Frames

  const ACK: Byte := 0xAA
  const NAK: Byte := 0x55
  const MAX_NAK_RETRIES := 10

  datatype Heard = Faithful | AsNak | Silent

  /** What becomes of one transmission: whether the frame arrives intact, noise the host
      hears first, whatever bytes it may be, and how the boot ROM's answer reaches the
      host. A damaged frame is answered with NAK. */
  datatype Fate = Fate(arrives: bool, noise: seq<Byte>, heard: Heard)

  function HeardOf(fate: Fate, acked: bool): seq<Byte>
  {
    fate.noise + match fate.heard
                 case Faithful => [if fate.arrives && acked then 0xAA else 0x55]
                 case AsNak => [0x55]
                 case Silent => []
  }

  /** The boot ROM, the fates of the coming transmissions, the bytes the host has not read
      yet, whether the deadline holds at each of the coming looks at the clock, and
      everything transmitted. */
  datatype Link = Link(rom: Rom, fates: seq<Fate>, pending: seq<Byte>, clock: seq<bool>, log: seq<seq<Byte>>)

  /** One transmission; with no fate left for it the frame is lost. */
  function Transmit(l: Link, f: seq<Byte>): Link
  {
    if l.fates == [] then l.(log := l.log + [f])
    else
      var fate := l.fates[0];
      var (rom', acked) := OnFrame(l.rom, f);
      l.(rom := if fate.arrives then rom' else l.rom, fates := l.fates[1..],
         pending := l.pending + HeardOf(fate, acked), log := l.log + [f])
  }

  datatype Sent = Sent(link: Link, ok: bool)

  /** The waiting loop with `left` retransmissions to go. */
  function Await(l: Link, f: seq<Byte>, left: nat): Sent
    decreases left, |l.pending|
  {
    if left == 0 then Sent(l, false)
    else
      var l1 := l.(clock := if l.clock == [] then [] else l.clock[1..]);
      if (l.clock != [] && !l.clock[0]) || l.pending == [] then Sent(l1, false)
      else
        var l2 := l1.(pending := l.pending[1..]);
        if l.pending[0] == ACK then Sent(l2, true)
        else if l.pending[0] == NAK then Await(Transmit(l2, f), f, left - 1)
        else Await(l2, f, left)
  }

  /** _send_frame_wait_ack. */
  function SendFrame(l: Link, f: seq<Byte>): Sent
  {
    Await(Transmit(l, f), f, MAX_NAK_RETRIES)
  }

  /** Frame after frame, up to the first that fails. */
  function SendFrames(l: Link, fs: seq<seq<Byte>>): Sent
    decreases |fs|
  {
    if fs == [] then Sent(l, true)
    else
      var s := SendFrame(l, fs[0]);
      if s.ok then SendFrames(s.link, fs[1..]) else s
  }

  lemma {:induction false} SendMore(l: Link, fs: seq<seq<Byte>>, gs: seq<seq<Byte>>)
    ensures SendFrames(l, fs + gs)
         == if SendFrames(l, fs).ok then SendFrames(SendFrames(l, fs).link, gs) else SendFrames(l, fs)
    decreases |fs|
  {
    hide SendFrame;
    if fs == [] {
      assert fs + gs == gs;
    } else {
      assert (fs + gs)[0] == fs[0] && (fs + gs)[1..] == fs[1..] + gs;
      if SendFrame(l, fs[0]).ok { SendMore(SendFrame(l, fs[0]).link, fs[1..], gs); }
    }
  }

  // ---- How often a frame is sent ---------------------------------------------------------

  function Copies(f: seq<Byte>, n: nat): (s: seq<seq<Byte>>)
    ensures |s| == n
  {
    seq(n, _ => f)
  }

  lemma {:induction false} AwaitLog(l: Link, f: seq<Byte>, left: nat) returns (n: nat)
    ensures n <= left && Await(l, f, left).link.log == l.log + Copies(f, n)
    decreases left, |l.pending|
  {
    hide OnFrame;
    n := 0;
    assert l.log + Copies(f, 0) == l.log;
    if left > 0 && (l.clock == [] || l.clock[0]) && l.pending != [] && l.pending[0] != ACK {
      var l2 := l.(clock := if l.clock == [] then [] else l.clock[1..], pending := l.pending[1..]);
      if l.pending[0] == NAK {
        n := AwaitLog(Transmit(l2, f), f, left - 1);
        assert l.log + [f] + Copies(f, n) == l.log + Copies(f, n + 1);
        n := n + 1;
      } else {
        n := AwaitLog(l2, f, left);
      }
    }
  }

  /** At least once and at most eleven times, and nothing else, for every
      line. */
  lemma FrameSends(l: Link, f: seq<Byte>) returns (n: nat)
    ensures 1 <= n <= 11 && SendFrame(l, f).link.log == l.log + Copies(f, n)
  {
    hide Await;
    n := AwaitLog(Transmit(l, f), f, MAX_NAK_RETRIES);
    assert l.log + [f] + Copies(f, n) == l.log + Copies(f, n + 1);
    n := n + 1;
  }

  /** The first frames of fs, frame i in sends[i] copies. */
  ghost function Spread(fs: seq<seq<Byte>>, sends: seq<nat>): seq<seq<Byte>>
    requires |sends| <= |fs|
    decreases |sends|
  {
    if sends == [] then [] else Copies(fs[0], sends[0]) + Spread(fs[1..], sends[1..])
  }

  /** All transmissions of a sequence of frames, in order, each at most eleven times. */
  lemma {:induction false} FramesSend(l: Link, fs: seq<seq<Byte>>) returns (sends: seq<nat>)
    ensures |sends| <= |fs| && (SendFrames(l, fs).ok ==> |sends| == |fs|)
    ensures forall i :: 0 <= i < |sends| ==> 1 <= sends[i] <= 11
    ensures SendFrames(l, fs).link.log == l.log + Spread(fs, sends)
    decreases |fs|
  {
    hide SendFrame;
    if fs == [] {
      sends := [];
      assert l.log + Spread(fs, []) == l.log;
    } else {
      var n := FrameSends(l, fs[0]);
      var s := SendFrame(l, fs[0]);
      if s.ok {
        var rest := FramesSend(s.link, fs[1..]);
        sends := [n] + rest;
        assert sends[1..] == rest;
        assert l.log + Copies(fs[0], n) + Spread(fs[1..], rest) == l.log + (Copies(fs[0], n) + Spread(fs[1..], rest));
      } else {
        sends := [n];
        assert Copies(fs[0], n) + Spread(fs[1..], []) == Copies(fs[0], n);
      }
    }
  }

  // ---- When True means delivered ----------------------------------------------------------

  /** No noise byte passes for an ACK. */
  ghost predicate NoFalseAck(fates: seq<Fate>)
  {
    forall i :: 0 <= i < |fates| ==> ACK !in fates[i].noise
  }

  /** The boot ROM is where f takes it, or goes there with an intact f; and copies of f are
      acknowledged and change nothing. */
  ghost predicate Open(rom: Rom, f: seq<Byte>, after: Rom)
  {
    (rom == after || OnFrame(rom, f) == (after, true)) && OnFrame(after, f) == (after, true)
  }

  lemma TransmitDelivers(l: Link, f: seq<Byte>, after: Rom) returns (heard: seq<Byte>)
    requires NoFalseAck(l.fates) && Open(l.rom, f, after)
    ensures var l' := Transmit(l, f);
            && l'.pending == l.pending + heard && NoFalseAck(l'.fates) && Open(l'.rom, f, after)
            && (ACK in heard || l.rom == after ==> l'.rom == after)
  {
    hide OnFrame;
    heard := if l.fates == [] then [] else HeardOf(l.fates[0], OnFrame(l.rom, f).1);
  }

  /** Waiting with `left` retransmissions to go, the host would read an ACK among the bytes
      that were there before the frame. */
  predicate Misleading(unread: seq<Byte>, left: nat)
    decreases |unread|
  {
    left > 0 && unread != [] &&
    (unread[0] == ACK || Misleading(unread[1..], if unread[0] == NAK then left - 1 else left))
  }

  /** The unread bytes are old ones and then answers to this frame. */
  lemma {:induction false} AwaitDelivers(l: Link, f: seq<Byte>, left: nat, after: Rom,
                                         stale: seq<Byte>, news: seq<Byte>)
    requires NoFalseAck(l.fates) && Open(l.rom, f, after) && l.pending == stale + news
    requires !Misleading(stale, left) && (ACK in news ==> l.rom == after)
    ensures var s := Await(l, f, left); NoFalseAck(s.link.fates) && (s.ok ==> s.link.rom == after)
    decreases left, |l.pending|
  {
    hide Transmit, NoFalseAck, Open;
    if left > 0 && (l.clock == [] || l.clock[0]) && l.pending != [] && l.pending[0] != ACK {
      var l2 := l.(clock := if l.clock == [] then [] else l.clock[1..], pending := l.pending[1..]);
      var o, n := if stale == [] then [] else stale[1..], if stale == [] then news[1..] else news;
      assert l2.pending == o + n;
      if l.pending[0] == NAK {
        var heard := TransmitDelivers(l2, f, after);
        assert o + n + heard == o + (n + heard);
        AwaitDelivers(Transmit(l2, f), f, left - 1, after, o, n + heard);
      } else {
        AwaitDelivers(l2, f, left, after, o, n);
      }
    }
  }

  /** True means the boot ROM has the frame, if the bytes left unread when the frame was
      first written do not mislead and no noise byte is 0xAA: noise that passes for NAK
      does no harm to this frame. */
  lemma FrameDelivered(l: Link, f: seq<Byte>, after: Rom)
    requires !Misleading(l.pending, MAX_NAK_RETRIES) && NoFalseAck(l.fates) && Takes(l.rom, f, after)
    ensures var s := SendFrame(l, f); NoFalseAck(s.link.fates) && (s.ok ==> s.link.rom == after)
  {
    hide OnFrame, Await, Transmit, NoFalseAck, Misleading;
    var heard := TransmitDelivers(l, f, after);
    AwaitDelivers(Transmit(l, f), f, MAX_NAK_RETRIES, after, l.pending, heard);
  }

  lemma {:induction false} AwaitMisled(l: Link, f: seq<Byte>, left: nat)
    requires l.fates == [] && l.clock == [] && Misleading(l.pending, left)
    ensures Await(l, f, left).ok && Await(l, f, left).link.rom == l.rom
    decreases |l.pending|
  {
    if l.pending[0] == NAK {
      AwaitMisled(l.(pending := l.pending[1..], log := l.log + [f]), f, left - 1);
    } else if l.pending[0] != ACK {
      AwaitMisled(l.(pending := l.pending[1..]), f, left);
    }
  }

  ghost predicate Believable(l: Link, f: seq<Byte>, after: Rom)
  {
    SendFrame(l, f).ok ==> SendFrame(l, f).link.rom == after
  }

  /** And only then: the unread bytes decide whether the answer can be believed, whatever
      becomes of the transmissions. */
  lemma UnreadDecides(rom: Rom, unread: seq<Byte>, f: seq<Byte>, after: Rom)
    requires Takes(rom, f, after) && rom != after
    ensures !Misleading(unread, MAX_NAK_RETRIES) <==>
            forall l: Link :: l.rom == rom && l.pending == unread && NoFalseAck(l.fates) ==> Believable(l, f, after)
  {
    hide OnFrame, Await, Misleading;
    if Misleading(unread, MAX_NAK_RETRIES) {
      var l := Link(rom, [], unread, [], []);
      AwaitMisled(Transmit(l, f), f, MAX_NAK_RETRIES);
      assert !Believable(l, f, after);
    } else {
      forall l: Link | l.rom == rom && l.pending == unread && NoFalseAck(l.fates) ensures Believable(l, f, after) {
        FrameDelivered(l, f, after);
      }
    }
  }

  /** What is left unread when a frame is first written never misleads. */
  ghost predicate Drained(l: Link, fs: seq<seq<Byte>>)
    decreases |fs|
  {
    fs == [] ||
    (!Misleading(l.pending, MAX_NAK_RETRIES) &&
     (SendFrame(l, fs[0]).ok ==> Drained(SendFrame(l, fs[0]).link, fs[1..])))
  }

  /** The boot ROM takes each of the frames in turn. */
  ghost predicate TakesEach(rom: Rom, fs: seq<seq<Byte>>)
    decreases |fs|
  {
    fs == [] || (Takes(rom, fs[0], OnFrame(rom, fs[0]).0) && TakesEach(OnFrame(rom, fs[0]).0, fs[1..]))
  }

  function RomAfter(rom: Rom, fs: seq<seq<Byte>>): Rom
    decreases |fs|
  {
    if fs == [] then rom else RomAfter(OnFrame(rom, fs[0]).0, fs[1..])
  }

  lemma {:induction false} FramesDelivered(l: Link, fs: seq<seq<Byte>>)
    requires NoFalseAck(l.fates) && Drained(l, fs) && TakesEach(l.rom, fs)
    ensures var s := SendFrames(l, fs); s.ok ==> s.link.rom == RomAfter(l.rom, fs) && NoFalseAck(s.link.fates)
    decreases |fs|
  {
    hide OnFrame, SendFrame, NoFalseAck, Takes;
    if fs != [] {
      FrameDelivered(l, fs[0], OnFrame(l.rom, fs[0]).0);
      if SendFrame(l, fs[0]).ok { FramesDelivered(SendFrame(l, fs[0]).link, fs[1..]); }
    }
  }

  lemma {:induction false} DrainedMore(l: Link, fs: seq<seq<Byte>>, gs: seq<seq<Byte>>)
    requires Drained(l, fs + gs)
    ensures Drained(l, fs) && (SendFrames(l, fs).ok ==> Drained(SendFrames(l, fs).link, gs))
    decreases |fs|
  {
    hide SendFrame;
    if fs == [] {
      assert fs + gs == gs;
    } else {
      assert (fs + gs)[0] == fs[0] && (fs + gs)[1..] == fs[1..] + gs;
      if SendFrame(l, fs[0]).ok { DrainedMore(SendFrame(l, fs[0]).link, fs[1..], gs); }
    }
  }

  // ---- Noise that passes for no answer ------------------------------------------------------

  predicate IsNoise(bytes: seq<Byte>)
  {
    forall i :: 0 <= i < |bytes| ==> bytes[i] != ACK && bytes[i] != NAK
  }

  ghost predicate Harmless(fates: seq<Fate>)
  {
    forall i :: 0 <= i < |fates| ==> IsNoise(fates[i].noise)
  }

  /** The deadline never passes. */
  ghost predicate OnTime(clock: seq<bool>)
  {
    forall i :: 0 <= i < |clock| ==> clock[i]
  }

  /** Noise, then at most one answer. */
  ghost predicate OneAnswer(pending: seq<Byte>)
  {
    pending == [] || IsNoise(pending[..|pending| - 1])
  }

  lemma TransmitAnswers(l: Link, f: seq<Byte>)
    requires Harmless(l.fates) && l.pending == []
    ensures Harmless(Transmit(l, f).fates) && OneAnswer(Transmit(l, f).pending)
  {
    hide OnFrame;
    if l.fates != [] {
      var p, n := Transmit(l, f).pending, |l.fates[0].noise|;
      assert p == HeardOf(l.fates[0], OnFrame(l.rom, f).1);
      assert IsNoise(l.fates[0].noise);
      if p != [] { assert |p| == n || p[..|p| - 1] == l.fates[0].noise; }
    }
  }

  /** Then an ACK is the last thing to read: nothing is left behind. */
  lemma {:induction false} AwaitDrains(l: Link, f: seq<Byte>, left: nat)
    requires Harmless(l.fates) && OneAnswer(l.pending)
    ensures var s := Await(l, f, left); Harmless(s.link.fates) && (s.ok ==> s.link.pending == [])
    decreases left, |l.pending|
  {
    hide Transmit, Harmless;
    if left > 0 && (l.clock == [] || l.clock[0]) && l.pending != [] {
      AnswerEnds(l.pending);
      var l2 := l.(clock := if l.clock == [] then [] else l.clock[1..], pending := l.pending[1..]);
      if l.pending[0] == NAK {
        TransmitAnswers(l2, f);
        AwaitDrains(Transmit(l2, f), f, left - 1);
      } else if l.pending[0] != ACK {
        AwaitDrains(l2, f, left);
      }
    }
  }

  lemma AnswerEnds(pending: seq<Byte>)
    requires OneAnswer(pending) && pending != []
    ensures OneAnswer(pending[1..]) && (pending[0] == ACK || pending[0] == NAK ==> pending[1..] == [])
  {
    if |pending| > 1 {
      assert pending[..|pending| - 1][0] == pending[0];
      assert pending[1..][..|pending| - 2] == pending[..|pending| - 1][1..];
    }
  }

  /** With harmless noise every line is drained at every frame, so True always means
      delivered. */
  lemma {:induction false} HarmlessDrains(l: Link, fs: seq<seq<Byte>>)
    requires Harmless(l.fates) && l.pending == []
    ensures Drained(l, fs) && NoFalseAck(l.fates)
    decreases |fs|
  {
    hide Await, Transmit;
    if fs != [] {
      TransmitAnswers(l, fs[0]);
      AwaitDrains(Transmit(l, fs[0]), fs[0], MAX_NAK_RETRIES);
      if SendFrame(l, fs[0]).ok { HarmlessDrains(SendFrame(l, fs[0]).link, fs[1..]); }
    }
  }

  /** The frame arrives and its ACK does too. */
  predicate Perfect(fate: Fate)
  {
    fate.arrives && fate.heard == Faithful
  }

  /** One of the next n transmissions is acknowledged, and those before it are answered
      with NAK: silence ends the waiting. */
  predicate AckedWithin(fates: seq<Fate>, n: nat)
    decreases n
  {
    n > 0 && fates != [] && (Perfect(fates[0]) || (!fates[0].heard.Silent? && AckedWithin(fates[1..], n - 1)))
  }

  /** Noise and the answer to one transmission of a frame that the boot ROM takes. */
  lemma {:induction false} AwaitAnswer(l: Link, f: seq<Byte>, left: nat, after: Rom,
                                       noise: seq<Byte>, answer: seq<Byte>)
    requires Harmless(l.fates) && OnTime(l.clock) && Open(l.rom, f, after) && IsNoise(noise)
    requires l.pending == noise + answer && |answer| <= 1 && (answer != [] ==> answer[0] == ACK || answer[0] == NAK)
    ensures Await(l, f, left).ok == (left > 0 && answer != [] && (answer[0] == ACK || AckedWithin(l.fates, left - 1)))
    ensures OnTime(Await(l, f, left).link.clock)
    decreases left, 0, |l.pending|
  {
    hide OnFrame, AckedWithin, Open, Harmless;
    if left > 0 {
      var clock' := if l.clock == [] then [] else l.clock[1..];
      if noise != [] {
        var l2 := l.(clock := clock', pending := l.pending[1..]);
        assert l2.pending == noise[1..] + answer;
        AwaitAnswer(l2, f, left, after, noise[1..], answer);
      } else {
        assert l.pending == answer;
        if answer == [NAK] { AwaitResend(l.(clock := clock', pending := []), f, left - 1, after); }
      }
    }
  }

  /** One more transmission. */
  lemma {:induction false} AwaitResend(l: Link, f: seq<Byte>, left: nat, after: Rom)
    requires Harmless(l.fates) && OnTime(l.clock) && Open(l.rom, f, after) && l.pending == []
    ensures Await(Transmit(l, f), f, left).ok == AckedWithin(l.fates, left)
    ensures OnTime(Await(Transmit(l, f), f, left).link.clock)
    decreases left, 1, 0
  {
    hide OnFrame;
    var l' := Transmit(l, f);
    if l.fates != [] {
      var fate := l.fates[0];
      var heard := HeardOf(fate, true);
      var answer := heard[|fate.noise|..];
      assert IsNoise(fate.noise) && heard == fate.noise + answer && l'.pending == heard;
      assert Harmless(l'.fates) && Open(l'.rom, f, after);
      AwaitAnswer(l', f, left, after, fate.noise, answer);
    }
  }

  /** In time and with harmless noise a frame goes through exactly when one of its first
      ten transmissions is acknowledged: the answer to the eleventh is never read. */
  lemma FrameAcked(l: Link, f: seq<Byte>, after: Rom)
    requires l.pending == [] && Harmless(l.fates) && OnTime(l.clock) && Takes(l.rom, f, after)
    ensures SendFrame(l, f).ok <==> AckedWithin(l.fates, 10)
  {
    hide OnFrame, Await, Transmit, AckedWithin, Harmless, OnTime;
    AwaitResend(l, f, MAX_NAK_RETRIES, after);
  }

  lemma {:induction false} AwaitAck(l: Link, f: seq<Byte>, left: nat, noise: seq<Byte>)
    requires left > 0 && OnTime(l.clock) && IsNoise(noise) && l.pending == noise + [ACK]
    ensures var s := Await(l, f, left);
            s.ok && s.link.pending == [] && s.link.rom == l.rom && s.link.fates == l.fates && OnTime(s.link.clock)
    decreases |noise|
  {
    if noise == [] {
      assert l.pending == [ACK];
    } else {
      var l2 := l.(clock := if l.clock == [] then [] else l.clock[1..], pending := l.pending[1..]);
      assert l2.pending == noise[1..] + [ACK];
      AwaitAck(l2, f, left, noise[1..]);
    }
  }

  /** The next n transmissions go through. */
  ghost predicate Clear(fates: seq<Fate>, n: nat)
  {
    n <= |fates| && forall i :: 0 <= i < n ==> Perfect(fates[i])
  }

  lemma {:induction false} ClearSends(l: Link, fs: seq<seq<Byte>>)
    requires l.pending == [] && Harmless(l.fates) && OnTime(l.clock)
    requires Clear(l.fates, |fs|) && TakesEach(l.rom, fs)
    ensures SendFrames(l, fs).ok
    decreases |fs|
  {
    hide OnFrame, Await;
    if fs != [] {
      var l', noise := Transmit(l, fs[0]), l.fates[0].noise;
      assert l'.pending == noise + [ACK] && IsNoise(noise);
      AwaitAck(l', fs[0], MAX_NAK_RETRIES, noise);
      ClearSends(SendFrame(l, fs[0]).link, fs[1..]);
    }
  }

  // ---- A leftover ACK ------------------------------------------------------------------------

  const GOOD := Fate(true, [], Faithful)

  /** Noise that passes for NAK in front of an ACK: the frame is sent again, and the
      second ACK stays unread. */
  lemma SentTwice(l: Link, f: seq<Byte>, after: Rom)
    requires l.pending == [] && l.clock == [] && |l.fates| >= 2 && Takes(l.rom, f, after)
    requires l.fates[0] == Fate(true, [NAK], Faithful) && l.fates[1] == GOOD
    ensures SendFrame(l, f) == Sent(Link(after, l.fates[2..], [ACK], [], l.log + [f, f]), true)
  {
    hide OnFrame;
    var a := Transmit(l, f);
    assert a == Link(after, l.fates[1..], [NAK, ACK], [], l.log + [f]);
    var b := Transmit(a.(pending := [ACK]), f);
    assert b.fates == l.fates[2..] && b.log == l.log + [f, f] && b.pending == [ACK, ACK];
    assert [NAK, ACK][1..] == [ACK] && [ACK, ACK][1..] == [ACK];
    assert Await(b, f, MAX_NAK_RETRIES - 1) == Sent(b.(pending := [ACK]), true);
  }

  /** From then on every frame is taken for acknowledged by the ACK of the one before. */
  lemma LateAck(l: Link, f: seq<Byte>)
    requires l.pending == [ACK] && l.clock == [] && l.fates != [] && l.fates[0].noise == []
    requires l.fates[0].heard == Faithful && (l.fates[0].arrives ==> Takes(l.rom, f, OnFrame(l.rom, f).0))
    ensures SendFrame(l, f)
         == Sent(Link(if l.fates[0].arrives then OnFrame(l.rom, f).0 else l.rom, l.fates[1..],
                      [if l.fates[0].arrives then ACK else NAK], [], l.log + [f]), true)
  {
    hide OnFrame;
    var answer := if l.fates[0].arrives then ACK else NAK;
    assert Transmit(l, f).pending == [ACK, answer];
    assert [ACK, answer][1..] == [answer];
  }

  ghost predicate AllGood(fates: seq<Fate>, n: nat)
  {
    n <= |fates| && forall i :: 0 <= i < n ==> fates[i] == GOOD
  }

  lemma GoodRest(fates: seq<Fate>, n: nat)
    requires n > 0 && AllGood(fates, n)
    ensures fates != [] && fates[0] == GOOD && AllGood(fates[1..], n - 1) && fates[1..][n - 1..] == fates[n..]
  {
  }

  lemma {:induction false} LateAcks(l: Link, fs: seq<seq<Byte>>)
    requires l.pending == [ACK] && l.clock == [] && TakesEach(l.rom, fs) && AllGood(l.fates, |fs|)
    ensures |fs| <= |l.fates|
    ensures var s := SendFrames(l, fs);
            && s.ok && s.link.rom == RomAfter(l.rom, fs) && s.link.fates == l.fates[|fs|..]
            && s.link.pending == [ACK] && s.link.clock == []
    decreases |fs|
  {
    hide OnFrame, Transmit, Await, SendFrame, Takes;
    if fs != [] {
      hide AllGood;
      var after := OnFrame(l.rom, fs[0]).0;
      GoodRest(l.fates, |fs|);
      LateAck(l, fs[0]);
      var l' := Link(after, l.fates[1..], [ACK], [], l.log + [fs[0]]);
      assert SendFrames(l, fs) == SendFrames(l', fs[1..]);
      LateAcks(l', fs[1..]);
    }
  }

  lemma {:induction false} TakesMore(rom: Rom, fs: seq<seq<Byte>>, gs: seq<seq<Byte>>)
    ensures RomAfter(rom, fs + gs) == RomAfter(RomAfter(rom, fs), gs)
    ensures TakesEach(rom, fs + gs) <==> TakesEach(rom, fs) && TakesEach(RomAfter(rom, fs), gs)
    decreases |fs|
  {
    hide OnFrame, Takes;
    if fs == [] {
      assert fs + gs == gs;
    } else {
      assert (fs + gs)[0] == fs[0] && (fs + gs)[1..] == fs[1..] + gs;
      TakesMore(OnFrame(rom, fs[0]).0, fs[1..], gs);
    }
  }

  /** The fates that leave an ACK over at the first of n frames and damage the last. */
  function LeftoverFates(n: nat): (fates: seq<Fate>)
    requires n >= 2
    ensures |fates| == n + 1
  {
    [Fate(true, [NAK], Faithful)] + seq(n - 1, _ => GOOD) + [Fate(false, [], Faithful)]
  }

  /** On such a line every frame is reported delivered, and the last one is not. */
  lemma LeftoverAck(rom: Rom, fs: seq<seq<Byte>>, last: seq<Byte>)
    requires fs != [] && TakesEach(rom, fs)
    ensures var s := SendFrames(Link(rom, LeftoverFates(|fs| + 1), [], [], []), fs + [last]);
            s.ok && s.link.rom == RomAfter(rom, fs)
  {
    hide OnFrame, SendFrame, Takes;
    var l := Link(rom, LeftoverFates(|fs| + 1), [], [], []);
    var l1 := SendFrame(l, fs[0]).link;
    SentTwice(l, fs[0], OnFrame(rom, fs[0]).0);
    LateAcks(l1, fs[1..]);
    var l2 := SendFrames(l1, fs[1..]).link;
    LateAck(l2, last);
    SendMore(l, fs, [last]);
    assert SendFrames(l, fs) == SendFrames(l1, fs[1..]);
    assert [last][1..] == [];
  }
}
