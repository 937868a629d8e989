/** The host's two receive paths (src/defib/agent/protocol.py): a synchronous one
    over a serial port's stash and an asynchronous one over a transport's
    leftover. Both must find the packets of the byte stream, however the stream
    is cut into reads. */
module Deframer {
  import opened Bits
  import opened Framing
  import opened Options
  import Cobs

  const MAX_PACKET_SIZE := 1100

  datatype Scan = Found(packet: Packet, rest: seq<Byte>) | Starved(frame: seq<Byte>)

  function Grow(frame: seq<Byte>, b: Byte): seq<Byte>
  {
    if |frame| + 1 > MAX_PACKET_SIZE then [] else frame + [b]
  }

  /** The packet that a delimiter completes, if any. */
  function Complete(frame: seq<Byte>): Option<Packet>
  {
    if frame == [] then None else Parse(frame)
  }

  /** Byte by byte until the first packet. */
  function ScanFrom(stream: seq<Byte>, frame: seq<Byte>): Scan
    decreases |stream|
  {
    if stream == [] then Starved(frame)
    else if stream[0] != 0 then ScanFrom(stream[1..], Grow(frame, stream[0]))
    else match Complete(frame)
      case Some(p) => Found(p, stream[1..])
      case None => ScanFrom(stream[1..], [])
  }

  lemma {:induction false} ScanShrinks(stream: seq<Byte>, frame: seq<Byte>)
    requires ScanFrom(stream, frame).Found?
    ensures |ScanFrom(stream, frame).rest| < |stream|
    decreases |stream|
  {
    if stream[0] != 0 {
      ScanShrinks(stream[1..], Grow(frame, stream[0]));
    } else if Complete(frame).None? {
      ScanShrinks(stream[1..], []);
    }
  }

  /** What repeated receive calls deliver. */
  function Packets(stream: seq<Byte>): seq<Packet>
    decreases |stream|
  {
    match ScanFrom(stream, [])
    case Starved(_) => []
    case Found(p, rest) => ScanShrinks(stream, []); [p] + Packets(rest)
  }

  /** A read boundary is invisible. */
  lemma {:induction false} ScanSplit(a: seq<Byte>, b: seq<Byte>, frame: seq<Byte>)
    ensures ScanFrom(a + b, frame) ==
            match ScanFrom(a, frame)
            case Found(p, rest) => Found(p, rest + b)
            case Starved(f) => ScanFrom(b, f)
    decreases |a|
  {
    if a == [] {
      assert a + b == b;
    } else {
      assert (a + b)[1..] == a[1..] + b;
      if a[0] != 0 {
        ScanSplit(a[1..], b, Grow(frame, a[0]));
      } else if Complete(frame).None? {
        ScanSplit(a[1..], b, []);
      }
    }
  }

  // ---- The delimiter-by-delimiter reference -------------------------------

  /** Length of the stretch before the first delimiter. */
  function Stretch(stream: seq<Byte>): (n: nat)
    ensures n <= |stream|
    ensures forall i :: 0 <= i < n ==> stream[i] != 0
    ensures n < |stream| ==> stream[n] == 0
  {
    if stream == [] || stream[0] == 0 then 0 else 1 + Stretch(stream[1..])
  }

  /** An over-long stretch is dropped in pieces of 1101 bytes. */
  function Residue(stretch: seq<Byte>): seq<Byte>
  {
    stretch[|stretch| / 1101 * 1101..]
  }

  /** Each delimited stretch on its own gives one packet or none. */
  function ByStretch(stream: seq<Byte>): seq<Packet>
    decreases |stream|
  {
    var n := Stretch(stream);
    if n == |stream| then []
    else
      var rest := ByStretch(stream[n + 1..]);
      match Complete(Residue(stream[..n]))
      case Some(p) => [p] + rest
      case None => rest
  }

  lemma {:induction false} ScanStretch(s: seq<Byte>, tail: seq<Byte>, frame: seq<Byte>)
    requires Cobs.NoZero(s) && |frame| <= MAX_PACKET_SIZE
    ensures ScanFrom(s + tail, frame) == ScanFrom(tail, Residue(frame + s))
    decreases |s|
  {
    if s == [] {
      assert s + tail == tail && frame + s == frame;
    } else {
      assert (s + tail)[1..] == s[1..] + tail;
      var f := Grow(frame, s[0]);
      ScanStretch(s[1..], tail, f);
      ResidueGrow(frame, s);
    }
  }

  lemma ResidueGrow(frame: seq<Byte>, s: seq<Byte>)
    requires s != [] && |frame| <= MAX_PACKET_SIZE
    ensures Residue(Grow(frame, s[0]) + s[1..]) == Residue(frame + s)
  {
    var all := frame + s;
    if |frame| < MAX_PACKET_SIZE {
      assert frame + [s[0]] + s[1..] == all;
    } else {
      var k := |s[1..]| / 1101;
      assert |all| / 1101 == k + 1;
      assert all[(k + 1) * 1101..] == s[1..][k * 1101..];
      assert [] + s[1..] == s[1..];
    }
  }

  /** The byte-by-byte receiver delivers exactly the packets of the stretches. */
  lemma {:induction false} PacketsByStretch(stream: seq<Byte>)
    ensures Packets(stream) == ByStretch(stream)
    decreases |stream|
  {
    var n := Stretch(stream);
    var s := stream[..n];
    assert stream == s + stream[n..];
    ScanStretch(s, stream[n..], []);
    assert [] + s == s;
    if n < |stream| {
      assert stream[n..][1..] == stream[n + 1..];
      PacketsByStretch(stream[n + 1..]);
    }
  }

  // ---- Streams of built packets -------------------------------------------

  function Wire(ps: seq<Packet>): seq<Byte>
  {
    if ps == [] then [] else Build(ps[0]) + Wire(ps[1..])
  }

  ghost predicate Sized(ps: seq<Packet>)
  {
    forall i :: 0 <= i < |ps| ==> |Frame(ps[i])| <= 1100
  }

  lemma ScanShort(f: seq<Byte>, tail: seq<Byte>)
    requires Cobs.NoZero(f) && |f| <= MAX_PACKET_SIZE
    ensures ScanFrom(f + tail, []) == ScanFrom(tail, f)
  {
    ResidueShort(f);
    ScanStretch(f, tail, []);
  }

  lemma ResidueShort(f: seq<Byte>)
    requires |f| <= MAX_PACKET_SIZE
    ensures Residue([] + f) == f
  {
    assert [] + f == f && |f| / 1101 == 0;
  }

  lemma ScanDelimiter(frame: seq<Byte>, tail: seq<Byte>)
    requires Complete(frame).Some?
    ensures ScanFrom([0] + tail, frame) == Found(Complete(frame).value, tail)
  {
    assert ([0] + tail)[1..] == tail;
  }

  lemma ScanBuilt(p: Packet, tail: seq<Byte>)
    requires |Frame(p)| <= MAX_PACKET_SIZE
    ensures ScanFrom(Build(p) + tail, []) == Found(p, tail)
  {
    FrameShape(p);
    ParseFrame(p);
    ScanShort(Frame(p), [0] + tail);
    ScanDelimiter(Frame(p), tail);
    assert Build(p) + tail == Frame(p) + ([0] + tail);
  }

  /** Packets that fit the size limit come back in order. */
  lemma {:induction false} WireRoundTrip(ps: seq<Packet>)
    requires Sized(ps)
    ensures Packets(Wire(ps)) == ps
    decreases |ps|
  {
    if ps != [] {
      ScanBuilt(ps[0], Wire(ps[1..]));
      WireRoundTrip(ps[1..]);
    }
  }

  lemma NoBytes()
    ensures Packets([]) == []
  {
  }

  /** Whatever came before the last delimiter cannot hide what follows it. */
  lemma {:induction false} Resynchronises(garbage: seq<Byte>, ps: seq<Packet>)
    requires Sized(ps)
    ensures Packets(garbage + [0] + Wire(ps)) == Packets(garbage + [0]) + ps
    decreases |garbage|
  {
    hide ScanFrom, Wire;
    var g := garbage + [0];
    ScanSplit(g, Wire(ps), []);
    match ScanFrom(g, [])
    case Found(p, rest) =>
      ScanShrinks(g, []);
      ScanRestEnds(garbage, []);
      if rest == [] {
        assert rest + Wire(ps) == Wire(ps);
        WireRoundTrip(ps);
        NoBytes();
      } else {
        var inner := rest[..|rest| - 1];
        assert rest == inner + [0];
        Resynchronises(inner, ps);
      }
    case Starved(f) =>
      ScanRestEnds(garbage, []);
      WireRoundTrip(ps);
      assert [] + ps == ps;
  }

  /** A scan of delimited bytes leaves delimited bytes, or nothing pending. */
  lemma {:induction false} ScanRestEnds(garbage: seq<Byte>, frame: seq<Byte>)
    ensures match ScanFrom(garbage + [0], frame)
            case Found(_, rest) => rest == [] || rest[|rest| - 1] == 0
            case Starved(f) => f == []
    decreases |garbage|
  {
    var g := garbage + [0];
    if garbage != [] {
      assert g[1..] == garbage[1..] + [0];
      if g[0] != 0 {
        ScanRestEnds(garbage[1..], Grow(frame, g[0]));
      } else {
        ScanRestEnds(garbage[1..], []);
      }
    }
  }

  // ---- The two receive paths ----------------------------------------------

  function Flatten(chunks: seq<seq<Byte>>): seq<Byte>
  {
    if chunks == [] then [] else chunks[0] + Flatten(chunks[1..])
  }

  /** The shared byte loop: continue `frame` over one chunk. */
  method Consume(data: seq<Byte>, frame: seq<Byte>) returns (got: Option<Packet>, frame': seq<Byte>, rest: seq<Byte>)
    ensures match ScanFrom(data, frame)
            case Found(p, r) => got == Some(p) && rest == r
            case Starved(f) => got == None && frame' == f
  {
    frame', rest := frame, [];
    var i := 0;
    while i < |data|
      invariant 0 <= i <= |data|
      invariant ScanFrom(data, frame) == ScanFrom(data[i..], frame')
    {
      assert data[i..][1..] == data[i + 1..];
      if data[i] == 0 {
        if frame' != [] {
          got := Parse(frame');
          if got.Some? {
            rest := data[i + 1..];
            return;
          }
        }
        frame' := [];
      } else {
        frame' := frame' + [data[i]];
        if |frame'| > MAX_PACKET_SIZE { frame' := []; }
      }
      i := i + 1;
    }
    got := None;
  }

  /** A transport with the bytes stashed behind the last delimiter, and the reads
      that will still succeed before each deadline. */
  class Link {
    var stash: seq<Byte>
    var chunks: seq<seq<Byte>>

    constructor (chunks: seq<seq<Byte>>)
      ensures this.chunks == chunks && stash == []
    {
      this.chunks := chunks;
      stash := [];
    }

    ghost function Stream(): seq<Byte>
      reads this
    {
      stash + Flatten(chunks)
    }

    /** _recv_packet_sync: `polls` loop passes happen before the deadline. */
    method RecvSync(polls: nat) returns (r: Option<Packet>)
      modifies this
      ensures r.Some? ==> ScanFrom(old(Stream()), []) == Found(r.value, Stream())
      ensures r.None? && polls > old(|chunks|) ==> ScanFrom(old(Stream()), []).Starved? && Stream() == []
    {
      var frame: seq<Byte> := [];
      var left := polls;
      assert stash + Flatten(chunks) == Stream();
      while left > 0
        invariant ScanFrom(old(Stream()), []) == ScanFrom(Stream(), frame)
        invariant polls > old(|chunks|) ==> left > |chunks| || (left == |chunks| && stash == [])
      {
        left := left - 1;
        ghost var before := Stream();
        var data: seq<Byte>;
        if stash != [] {
          data, stash := stash, [];
        } else if chunks != [] {
          data, chunks := chunks[0], chunks[1..];
        } else {
          data := [];
        }
        assert before == data + Flatten(chunks);
        ScanSplit(data, Flatten(chunks), frame);
        var got, frame', rest := Consume(data, frame);
        if got.Some? {
          stash := rest;
          return got;
        }
        frame := frame';
        assert Stream() == Flatten(chunks);
      }
      r := None;
    }

    /** recv_packet without a serial port: the leftover is walked first, then up
        to `polls` reads. */
    method RecvAsync(polls: nat) returns (r: Option<Packet>)
      modifies this
      ensures r.Some? ==> ScanFrom(old(Stream()), []) == Found(r.value, Stream())
      ensures r.None? && polls >= old(|chunks|) ==> ScanFrom(old(Stream()), []).Starved? && Stream() == []
    {
      var chunk := stash;
      stash := [];
      ScanSplit(chunk, Flatten(chunks), []);
      var got, frame, rest := Consume(chunk, []);
      if got.Some? {
        stash := rest;
        return got;
      }
      var left := polls;
      assert Stream() == Flatten(chunks);
      while left > 0 && chunks != []
        invariant stash == [] && ScanFrom(old(Stream()), []) == ScanFrom(Flatten(chunks), frame)
        invariant polls >= old(|chunks|) ==> left >= |chunks|
      {
        var data := chunks[0];
        left, chunks := left - 1, chunks[1..];
        ScanSplit(data, Flatten(chunks), frame);
        got, frame, rest := Consume(data, frame);
        if got.Some? {
          stash := rest;
          return got;
        }
      }
      r := None;
      assert Stream() == Flatten(chunks);
    }
  }

  /** Repeated calls, with enough time, return the packets of the byte stream on
      either path: the result does not depend on how the stream was cut up. */
  method ReceiveAll(link: Link, sync: bool) returns (ps: seq<Packet>)
    modifies link
    ensures ps == Packets(old(link.Stream()))
  {
    hide ScanFrom, Flatten;
    ps := [];
    while true
      invariant ps + Packets(link.Stream()) == Packets(old(link.Stream()))
      decreases |link.Stream()|
    {
      ghost var before := link.Stream();
      var r;
      if sync { r := link.RecvSync(|link.chunks| + 1); } else { r := link.RecvAsync(|link.chunks|); }
      if r.None? { break; }
      ScanShrinks(before, []);
      ps := ps + [r.value];
    }
  }
}
