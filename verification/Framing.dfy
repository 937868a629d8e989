/** The agent's packet: [cmd][data][crc32 LE], COBS-encoded, closed by one zero. */
module Framing {
  import opened Bits
  import opened Options
  import Cobs
  import Crc32

  const RSP_DATA: Byte := 0x82
  const RSP_ACK: Byte := 0x83
  const ACK_OK: Byte := 0x00
  const ACK_CRC_ERROR: Byte := 0x01
  const ACK_FLASH_ERROR: Byte := 0x02

  datatype Packet = Packet(cmd: Byte, data: seq<Byte>)

  function Payload(p: Packet): seq<Byte>
  {
    [p.cmd] + p.data
  }

  /** The encoded packet without its delimiter. */
  function Frame(p: Packet): seq<Byte>
  {
    Cobs.Encode(Payload(p) + Crc32.Le32(Crc32.Crc(0, Payload(p))))
  }

  /** build_packet and proto_send: what goes on the wire. */
  function Build(p: Packet): seq<Byte>
  {
    Frame(p) + [0]
  }

  /** parse_packet and the tail of proto_recv; None is the ValueError, or the
      agent's 0 return. */
  function Parse(raw: seq<Byte>): Option<Packet>
  {
    match Cobs.Decode(raw)
    case Malformed => None
    case Bytes(d) =>
      if |d| < 5 then None
      else
        var body := d[..|d| - 4];
        if Crc32.Crc(0, body) != Crc32.FromLe32(d[|d| - 4..]) then None
        else Some(Packet(body[0], body[1..]))
  }

  /** On the wire: one zero at the end and nowhere else; decoded, what is in front of it is the
      command byte, the data, and the CRC-32 of both with its least significant byte first. */
  lemma OnWire(p: Packet)
    ensures var w := Build(p);
            && |w| > 0 && w[|w| - 1] == 0 && Cobs.NoZero(w[..|w| - 1])
            && Cobs.Decode(w[..|w| - 1]).Bytes?
            && var d := Cobs.Decode(w[..|w| - 1]).data;
               && |d| == |p.data| + 5 && d[0] == p.cmd && d[1..1 + |p.data|] == p.data
               && d[1 + |p.data|..] == Crc32.Le32(Crc32.Crc(0, d[..1 + |p.data|]))
  {
    hide Cobs.Encode, Crc32.Crc, Crc32.Le32;
    var d := Payload(p) + Crc32.Le32(Crc32.Crc(0, Payload(p)));
    Cobs.RoundTrip(d);
    Cobs.EncodeShape(d);
    assert Build(p)[..|Build(p)| - 1] == Frame(p);
    assert d[..1 + |p.data|] == Payload(p);
  }

  /** Every packet survives framing. */
  lemma ParseFrame(p: Packet)
    ensures Parse(Frame(p)) == Some(p)
  {
    var body := Payload(p);
    var crc := Crc32.Crc(0, body);
    var d := body + Crc32.Le32(crc);
    Cobs.RoundTrip(d);
    assert d[..|d| - 4] == body && d[|d| - 4..] == Crc32.Le32(crc);
    Crc32.Fits(body);
    Crc32.Le32RoundTrip(crc);
    assert body[1..] == p.data;
  }

  /** Only a frame carrying the checksum of its own body is ever delivered. */
  lemma ParseSound(raw: seq<Byte>)
    requires Parse(raw).Some?
    ensures var body := Payload(Parse(raw).value);
            exists sum: seq<Byte> :: |sum| == 4 && Crc32.FromLe32(sum) == Crc32.Crc(0, body)
                                     && Cobs.Decode(raw) == Cobs.Bytes(body + sum)
  {
    var d := Cobs.Decode(raw).data;
    var body, sum := d[..|d| - 4], d[|d| - 4..];
    assert body == Payload(Parse(raw).value);
    assert d == body + sum;
  }

  lemma FrameShape(p: Packet)
    ensures Cobs.NoZero(Frame(p))
    ensures |p.data| + 6 <= |Frame(p)| <= |p.data| + 5 + (|p.data| + 5) / 254 + 1
  {
    Cobs.EncodeShape(Payload(p) + Crc32.Le32(Crc32.Crc(0, Payload(p))));
  }
}
