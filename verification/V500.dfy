/** The V500 transfer (src/defib/protocol/hisilicon_v500.py): every frame is repeated on
    NAK until it is acknowledged or the retries run out. */
module V500 {
  import opened Bits
  import opened Options
  import opened Tiling
  import opened V500Frames
  import opened V500Line
  import Crc32

  const CHUNK := 1024
  const KEY_AREA := 0x2000
  const AUX_LEN_OFF := 0x400
  const CODE_LEN_OFF := 0x404
  const TOTAL_LEN_OFF := 0x408
  const BOOT_TAIL := 0x200
  const CODE_ALIGN := 0x400
  const BOOT_LOAD_ADDR := 0x4100_0000
  const WORD := 0x1_0000_0000

  // ---- One area ---------------------------------------------------------------------------

  function ChunkAt(data: seq<Byte>, i: nat): seq<Byte>
  {
    UptoGrows(|data|, CHUNK, i);
    data[Upto(|data|, CHUNK, i)..Upto(|data|, CHUNK, i + 1)]
  }

  /** DATA 1, 2, ... */
  function DataFrames(data: seq<Byte>): (fs: seq<seq<Byte>>)
    ensures |fs| == Pieces(|data|, CHUNK)
  {
    seq(Pieces(|data|, CHUNK), i requires 0 <= i => DataFrame(i + 1, ChunkAt(data, i)))
  }

  /** The frames of one area but the last. */
  function Opening(data: seq<Byte>, addr: nat): seq<seq<Byte>>
  {
    [HeadFrame(|data|, addr)] + DataFrames(data)
  }

  function Closing(data: seq<Byte>): seq<Byte>
  {
    TailFrame(Pieces(|data|, CHUNK) + 1)
  }

  /** The frames of one area, in order: HEAD, DATA 1, 2, ..., TAIL. */
  function AreaFrames(data: seq<Byte>, addr: nat): seq<seq<Byte>>
  {
    Opening(data, addr) + [Closing(data)]
  }

  /** The TAIL number follows the last DATA number, modulo 256. */
  lemma TailFollowsData(data: seq<Byte>, addr: nat)
    requires data != [] && |data| < WORD && addr < WORD
    ensures var fs := AreaFrames(data, addr);
            var last := |fs| - 2;
            && last >= 1
            && Decode(fs[last]).Some? && Decode(fs[last]).value.Data?
            && Decode(fs[last + 1]) == Some(Tail((Decode(fs[last]).value.n + 1) % 256))
  {
    hide Decode, DataFrame, TailFrame, HeadFrame;
    var n := Pieces(|data|, CHUNK);
    PieceBounds(|data|, CHUNK, 0);
    PieceBounds(|data|, CHUNK, n - 1);
    DecodeData(n, ChunkAt(data, n - 1));
    DecodeTail(n + 1);
  }

  /** The boot ROM in the middle of an area, k chunks in. */
  ghost function Midway(data: seq<Byte>, addr: nat, k: nat, areas: seq<Area>): Rom
  {
    Rom(true, addr, |data|, data[..Upto(|data|, CHUNK, k)], k + 1, areas)
  }

  lemma TakesChunk(data: seq<Byte>, addr: nat, k: nat, areas: seq<Area>)
    requires k < Pieces(|data|, CHUNK)
    ensures Takes(Midway(data, addr, k, areas), DataFrames(data)[k], Midway(data, addr, k + 1, areas))
  {
    hide Takes, DataFrame, Pieces;
    PieceBounds(|data|, CHUNK, k);
    var lo, hi := Upto(|data|, CHUNK, k), Upto(|data|, CHUNK, k + 1);
    Join(data, 0, lo, hi);
    TakesData(Midway(data, addr, k, areas), ChunkAt(data, k));
  }

  lemma {:induction false} ChunksTaken(data: seq<Byte>, addr: nat, k: nat, areas: seq<Area>)
    requires k <= Pieces(|data|, CHUNK)
    ensures TakesEach(Midway(data, addr, k, areas), DataFrames(data)[k..])
    ensures RomAfter(Midway(data, addr, k, areas), DataFrames(data)[k..])
         == Midway(data, addr, Pieces(|data|, CHUNK), areas)
    decreases Pieces(|data|, CHUNK) - k
  {
    hide OnFrame, DataFrames, Midway, Pieces;
    if k < Pieces(|data|, CHUNK) {
      TakesChunk(data, addr, k, areas);
      ChunksTaken(data, addr, k + 1, areas);
      assert DataFrames(data)[k..][1..] == DataFrames(data)[k + 1..];
    }
  }

  lemma OpeningTaken(rom: Rom, data: seq<Byte>, addr: nat)
    requires |data| < WORD && addr < WORD
    ensures TakesEach(rom, Opening(data, addr))
    ensures RomAfter(rom, Opening(data, addr)) == Midway(data, addr, Pieces(|data|, CHUNK), rom.areas)
  {
    hide OnFrame, DataFrames, HeadFrame, Pieces;
    var fs := Opening(data, addr);
    TakesHead(rom, |data|, addr);
    ChunksTaken(data, addr, 0, rom.areas);
    assert data[..0] == [] && fs[1..] == DataFrames(data)[0..];
  }

  /** All frames of an area are taken, and then the area is complete. */
  lemma AreaTaken(rom: Rom, data: seq<Byte>, addr: nat)
    requires |data| < WORD && addr < WORD
    ensures var n := Pieces(|data|, CHUNK);
            && TakesEach(rom, AreaFrames(data, addr))
            && RomAfter(rom, AreaFrames(data, addr))
               == Rom(false, addr, |data|, data, n + 1, rom.areas + [Area(addr, data)])
  {
    hide OnFrame, Opening, TailFrame, Pieces;
    OpeningTaken(rom, data, addr);
    TakesMore(rom, Opening(data, addr), [Closing(data)]);
    PieceBounds(|data|, CHUNK, Pieces(|data|, CHUNK));
    assert data[..|data|] == data;
    TakesTail(RomAfter(rom, Opening(data, addr)));
    assert [Closing(data)][1..] == [];
  }

  /** True for an area means that the boot ROM has it, if what was left unread whenever a
      frame was first written held no ACK to mislead and no noise byte was 0xAA. */
  lemma AreaDelivered(l: Link, data: seq<Byte>, addr: nat)
    requires |data| < WORD && addr < WORD && NoFalseAck(l.fates) && Drained(l, AreaFrames(data, addr))
    ensures var s := SendFrames(l, AreaFrames(data, addr));
            s.ok ==> !s.link.rom.open && s.link.rom.areas == l.rom.areas + [Area(addr, data)]
  {
    hide OnFrame, AreaFrames, NoFalseAck, Drained, SendFrames, RomAfter, TakesEach;
    AreaTaken(l.rom, data, addr);
    FramesDelivered(l, AreaFrames(data, addr));
  }

  // ---- The three areas ----------------------------------------------------------------------

  function Clip(s: seq<Byte>, lo: nat, n: nat): (c: seq<Byte>)
    ensures |c| <= |s|
  {
    if lo >= |s| then [] else if lo + n <= |s| then s[lo..lo + n] else s[lo..]
  }

  /** The areas a boot image is sent as. */
  function AreasOf(firmware: seq<Byte>): (areas: seq<Area>)
    requires |firmware| >= AUX_LEN_OFF + 4
    ensures |areas| == 3
    ensures forall i :: 0 <= i < 3 ==> |areas[i].bytes| <= |firmware| && areas[i].addr < WORD
    ensures areas[2].bytes == firmware
  {
    var auxLen := Crc32.FromLe32(firmware[AUX_LEN_OFF..AUX_LEN_OFF + 4]);
    [Area(0, Clip(firmware, 0, KEY_AREA)), Area(KEY_AREA, Clip(firmware, KEY_AREA, auxLen)),
     Area(BOOT_LOAD_ADDR, firmware)]
  }

  /** The first two areas are a prefix of the image, loaded to addresses 0 and 0x2000 without
      a gap: at most 0x2000 bytes and then as many as the little-endian field at 0x400 says.
      The third is the whole image at 0x41000000. */
  lemma AreasCover(firmware: seq<Byte>)
    requires |firmware| >= 0x404
    ensures var areas := AreasOf(firmware);
            var aux := Crc32.FromLe32(firmware[0x400..0x404]);
            && areas[0].addr == 0 && areas[1].addr == 0x2000 && areas[2] == Area(0x4100_0000, firmware)
            && |areas[0].bytes| == (if |firmware| < 0x2000 then |firmware| else 0x2000)
            && areas[0].bytes + areas[1].bytes
               == if |firmware| < 0x2000 + aux then firmware else firmware[..0x2000 + aux]
  {
    var areas := AreasOf(firmware);
    var aux := Crc32.FromLe32(firmware[0x400..0x404]);
    if |firmware| > 0x2000 {
      assert areas[0].bytes == firmware[..0x2000];
      assert areas[1].bytes == if |firmware| < 0x2000 + aux then firmware[0x2000..] else firmware[0x2000..0x2000 + aux];
    } else {
      assert areas[0].bytes == firmware && areas[1].bytes == [];
    }
  }

  /** All frames of the first n areas, in order. */
  function FramesOf(areas: seq<Area>, n: nat): seq<seq<Byte>>
    requires n <= |areas|
  {
    if n == 0 then [] else FramesOf(areas, n - 1) + AreaFrames(areas[n - 1].bytes, areas[n - 1].addr)
  }

  function FirmwareFrames(firmware: seq<Byte>): seq<seq<Byte>>
    requires |firmware| >= AUX_LEN_OFF + 4
  {
    FramesOf(AreasOf(firmware), 3)
  }

  ghost predicate Sendable(areas: seq<Area>)
  {
    forall i :: 0 <= i < |areas| ==> |areas[i].bytes| < WORD && areas[i].addr < WORD
  }

  lemma {:induction false} AreasTaken(rom: Rom, areas: seq<Area>, n: nat)
    requires Sendable(areas) && n <= |areas|
    ensures TakesEach(rom, FramesOf(areas, n)) && RomAfter(rom, FramesOf(areas, n)).areas == rom.areas + areas[..n]
  {
    hide OnFrame, AreaFrames;
    if n == 0 {
      assert rom.areas + areas[..0] == rom.areas;
    } else {
      AreasTaken(rom, areas, n - 1);
      var fs, area := FramesOf(areas, n - 1), areas[n - 1];
      AreaTaken(RomAfter(rom, fs), area.bytes, area.addr);
      TakesMore(rom, fs, AreaFrames(area.bytes, area.addr));
      assert rom.areas + areas[..n - 1] + [area] == rom.areas + areas[..n];
    }
  }

  /** Success means that the boot ROM has all three areas, if what was left unread whenever
      a frame was first written held no ACK to mislead and no noise byte was 0xAA. */
  lemma FirmwareDelivered(l: Link, firmware: seq<Byte>)
    requires AUX_LEN_OFF + 4 <= |firmware| < WORD && NoFalseAck(l.fates) && Drained(l, FirmwareFrames(firmware))
    ensures var s := SendFrames(l, FirmwareFrames(firmware));
            s.ok ==> s.link.rom.areas == l.rom.areas + AreasOf(firmware)
  {
    hide OnFrame, AreasOf, FramesOf, NoFalseAck, Drained, SendFrames, RomAfter, TakesEach;
    var areas := AreasOf(firmware);
    AreasTaken(l.rom, areas, 3);
    FramesDelivered(l, FirmwareFrames(firmware));
    assert areas[..3] == areas;
  }

  /** With noise that passes for no answer, nothing is ever left unread: success means
      delivered without a condition. */
  lemma HarmlessDelivered(l: Link, firmware: seq<Byte>)
    requires AUX_LEN_OFF + 4 <= |firmware| < WORD && Harmless(l.fates) && l.pending == []
    ensures var s := SendFrames(l, FirmwareFrames(firmware));
            s.ok ==> s.link.rom.areas == l.rom.areas + AreasOf(firmware)
  {
    hide OnFrame, AreasOf, FirmwareFrames, NoFalseAck, Drained, Harmless, SendFrames;
    HarmlessDrains(l, FirmwareFrames(firmware));
    FirmwareDelivered(l, firmware);
  }

  /** A line on which every first transmission goes through makes it succeed. */
  lemma ClearSucceeds(l: Link, firmware: seq<Byte>)
    requires AUX_LEN_OFF + 4 <= |firmware| < WORD && Harmless(l.fates) && l.pending == [] && OnTime(l.clock)
    requires Clear(l.fates, |FirmwareFrames(firmware)|)
    ensures SendFrames(l, FirmwareFrames(firmware)).ok
  {
    hide OnFrame, AreasOf, FramesOf, Harmless, Clear, SendFrames, RomAfter, TakesEach;
    AreasTaken(l.rom, AreasOf(firmware), 3);
    ClearSends(l, FirmwareFrames(firmware));
  }

  /** Not so on every line. For every image: one noise byte 0x55 ahead of the very first
      ACK has the first frame sent twice, its second ACK stays unread and vouches for the
      frame after it, and so on to the last TAIL, which is damaged: success is reported
      with the boot image never closed. */
  lemma SuccessWithoutDelivery(rom: Rom, firmware: seq<Byte>) returns (l: Link)
    requires AUX_LEN_OFF + 4 <= |firmware| < WORD
    ensures l == Link(rom, LeftoverFates(|FirmwareFrames(firmware)|), [], [], []) && NoFalseAck(l.fates)
    ensures var s := SendFrames(l, FirmwareFrames(firmware));
            s.ok && s.link.rom.open && s.link.rom.areas == rom.areas + AreasOf(firmware)[..2]
  {
    hide OnFrame, AreasOf, AreaFrames, SendFrames, RomAfter, TakesEach, Opening, Closing;
    var areas := AreasOf(firmware);
    AreasTaken(rom, areas, 2);
    var first, opening := FramesOf(areas, 2), Opening(firmware, areas[2].addr);
    OpeningTaken(RomAfter(rom, first), firmware, areas[2].addr);
    TakesMore(rom, first, opening);
    OpeningNotEmpty(firmware, areas[2].addr);
    l := Link(rom, LeftoverFates(|first + opening| + 1), [], [], []);
    LeftoverAck(rom, first + opening, Closing(firmware));
    LastFrame(areas, firmware);
  }

  lemma OpeningNotEmpty(data: seq<Byte>, addr: nat)
    ensures Opening(data, addr) != []
  {
  }

  lemma LastFrame(areas: seq<Area>, firmware: seq<Byte>)
    requires |areas| == 3 && areas[2].bytes == firmware
    ensures FramesOf(areas, 3) == FramesOf(areas, 2) + Opening(firmware, areas[2].addr) + [Closing(firmware)]
  {
    hide Opening, Closing;
  }

  // ---- The sending host ------------------------------------------------------------------------

  /** The transport, with what becomes of the coming transmissions. */
  class Line {
    var rom: Rom
    var fates: seq<Fate>
    var pending: seq<Byte>
    var clock: seq<bool>
    var log: seq<seq<Byte>>

    ghost function View(): Link
      reads this
    {
      Link(rom, fates, pending, clock, log)
    }

    /** One transmission. When nothing is left of `fates` the frame is lost. */
    method Write(f: seq<Byte>)
      modifies this
      ensures View() == Transmit(old(View()), f)
    {
      hide OnFrame;
      log := log + [f];
      if fates == [] { return; }
      var fate := fates[0];
      fates := fates[1..];
      var acked := false;
      if fate.arrives {
        var (rom', ok) := OnFrame(rom, f);
        rom, acked := rom', ok;
      }
      var answer := match fate.heard
        case Faithful => [if acked then ACK else NAK]
        case AsNak => [NAK]
        case Silent => [];
      pending := pending + (fate.noise + answer);
    }

    method Read() returns (r: Option<Byte>)
      modifies this`pending
      ensures old(pending) == [] ==> r == None && pending == []
      ensures old(pending) != [] ==> r == Some(old(pending)[0]) && pending == old(pending)[1..]
    {
      if pending == [] { return None; }
      r, pending := Some(pending[0]), pending[1..];
    }

    method InTime() returns (yes: bool)
      modifies this`clock
      ensures yes <==> old(clock) == [] || old(clock)[0]
      ensures clock == if old(clock) == [] then [] else old(clock)[1..]
    {
      if clock == [] { return true; }
      yes, clock := clock[0], clock[1..];
    }
  }

  /** _send_frame_wait_ack. */
  method SendFrameWaitAck(line: Line, f: seq<Byte>) returns (ok: bool)
    modifies line
    ensures Sent(line.View(), ok) == SendFrame(old(line.View()), f)
  {
    hide Transmit;
    line.Write(f);
    var retries := 0;
    while retries < MAX_NAK_RETRIES
      invariant 0 <= retries <= MAX_NAK_RETRIES
      invariant Await(line.View(), f, MAX_NAK_RETRIES - retries) == SendFrame(old(line.View()), f)
      decreases MAX_NAK_RETRIES - retries, |line.pending|
    {
      var inTime := line.InTime();
      if !inTime { return false; }
      var r := line.Read();
      if r == None { return false; }
      if r == Some(ACK) { return true; }
      if r == Some(NAK) {
        line.Write(f);
        retries := retries + 1;
      }
    }
    ok := false;
  }

  /** _send_data_to_bootrom sends the frames of the area in order, up to the first that
      fails. */
  method SendDataToBootrom(line: Line, data: seq<Byte>, addr: nat) returns (ok: bool)
    modifies line
    ensures Sent(line.View(), ok) == SendFrames(old(line.View()), AreaFrames(data, addr))
  {
    hide HeadFrame, DataFrame, TailFrame, SendFrame, Pieces;
    ghost var fs := AreaFrames(data, addr);
    ok := SendFrameWaitAck(line, HeadFrame(|data|, addr));
    if !ok { return; }
    PieceBounds(|data|, CHUNK, 0);
    var idx, pos, remaining := 0, 0, |data|;
    while remaining > 0
      invariant 0 <= idx <= Pieces(|data|, CHUNK) && (remaining == 0 <==> idx == Pieces(|data|, CHUNK))
      invariant pos == Upto(|data|, CHUNK, idx) && pos + remaining == |data|
      invariant ok && SendFrames(line.View(), fs[idx + 1..]) == SendFrames(old(line.View()), fs)
      decreases remaining
    {
      PieceBounds(|data|, CHUNK, idx);
      PieceBounds(|data|, CHUNK, idx + 1);
      var size := if CHUNK < remaining then CHUNK else remaining;
      var chunk := data[pos..pos + size];
      assert fs[idx + 1..][0] == DataFrame(idx + 1, chunk) && fs[idx + 1..][1..] == fs[idx + 2..];
      idx := idx + 1;
      pos := pos + size;
      remaining := remaining - size;
      ok := SendFrameWaitAck(line, DataFrame(idx, chunk));
      if !ok { return; }
    }
    var count := (|data| + 1023) / 1024 + 1;
    assert count == Pieces(|data|, CHUNK) + 1 by { PiecesOf(|data|); }
    assert fs[idx + 1..] == [TailFrame(count)];
    ok := SendFrameWaitAck(line, TailFrame(count));
  }

  lemma PiecesOf(n: nat)
    ensures Pieces(n, CHUNK) == (n + 1023) / 1024
  {
  }

  /** send_firmware sends the frames of the three areas. An image without its length field
      raises after the HEAD area: that is not a success either. */
  method SendFirmware(line: Line, firmware: seq<Byte>) returns (success: bool)
    requires |firmware| < WORD
    modifies line
    ensures if |firmware| < AUX_LEN_OFF + 4
            then
              && !success
              && line.View() == SendFrames(old(line.View()), AreaFrames(Clip(firmware, 0, KEY_AREA), 0)).link
            else Sent(line.View(), success) == SendFrames(old(line.View()), FirmwareFrames(firmware))
    ensures success && NoFalseAck(old(line.fates)) && Drained(old(line.View()), FirmwareFrames(firmware)) ==>
              line.rom.areas == old(line.rom.areas) + AreasOf(firmware)
  {
    hide AreaFrames, SendFrames, Crc32.FromLe32, Clip, NoFalseAck, Drained;
    ghost var l := line.View();
    success := SendDataToBootrom(line, Clip(firmware, 0, KEY_AREA), 0);
    if |firmware| < AUX_LEN_OFF + 4 { return false; }
    ThreeAreas(l, AreasOf(firmware));
    if NoFalseAck(l.fates) && Drained(l, FirmwareFrames(firmware)) { FirmwareDelivered(l, firmware); }
    if !success { return; }
    var auxLen := Crc32.FromLe32(firmware[AUX_LEN_OFF..AUX_LEN_OFF + 4]);
    success := SendDataToBootrom(line, Clip(firmware, KEY_AREA, auxLen), KEY_AREA);
    if !success { return; }
    success := SendDataToBootrom(line, firmware, BOOT_LOAD_ADDR);
  }

  /** Then, up to the first failure, one area after the other. */
  ghost function Then(s: Sent, area: Area): Sent
  {
    if s.ok then SendFrames(s.link, AreaFrames(area.bytes, area.addr)) else s
  }

  lemma ThreeAreas(l: Link, areas: seq<Area>)
    requires |areas| == 3
    ensures SendFrames(l, FramesOf(areas, 3))
         == Then(Then(SendFrames(l, AreaFrames(areas[0].bytes, areas[0].addr)), areas[1]), areas[2])
  {
    hide AreaFrames, SendFrames;
    SendMore(l, FramesOf(areas, 2), AreaFrames(areas[2].bytes, areas[2].addr));
    SendMore(l, FramesOf(areas, 1), AreaFrames(areas[1].bytes, areas[1].addr));
    assert FramesOf(areas, 0) == [];
    assert FramesOf(areas, 1) == AreaFrames(areas[0].bytes, areas[0].addr);
  }

  // ---- Wrapping a payload ---------------------------------------------------------------------

  function AuxLen(donor: seq<Byte>): nat
    requires |donor| >= TOTAL_LEN_OFF + 4
  {
    Crc32.FromLe32(donor[AUX_LEN_OFF..AUX_LEN_OFF + 4])
  }

  predicate Accepted(donor: seq<Byte>, loadAddr: nat)
  {
    |donor| >= TOTAL_LEN_OFF + 4 &&
    var aux := AuxLen(donor);
    aux != 0 && aux % CODE_ALIGN == 0 && KEY_AREA + aux <= |donor| && BOOT_LOAD_ADDR + KEY_AREA + aux == loadAddr
  }

  function Padded(n: nat): nat
  {
    (n + CODE_ALIGN - 1) / CODE_ALIGN * CODE_ALIGN
  }

  function Patch(s: seq<Byte>, at: nat, w: nat): (r: seq<Byte>)
    requires at + 4 <= |s|
    ensures |r| == |s|
  {
    s[..at] + Crc32.Le32(w) + s[at + 4..]
  }

  /** wrap_v500_payload; None is a ValueError, or struct.error for a payload that does
      not fit its length field. */
  method WrapPayload(donor: seq<Byte>, payload: seq<Byte>, loadAddr: nat) returns (image: Option<seq<Byte>>)
    ensures image.Some? <==> Accepted(donor, loadAddr) && Padded(|payload|) + BOOT_TAIL < WORD
    ensures image.Some? ==> Wrapped(donor, payload, image.value)
  {
    if |donor| < TOTAL_LEN_OFF + 4 { return None; }
    var aux := AuxLen(donor);
    var codePos := KEY_AREA + aux;
    if aux == 0 || aux % CODE_ALIGN != 0 || codePos > |donor| { return None; }
    if BOOT_LOAD_ADDR + codePos != loadAddr { return None; }
    hide Patch;
    PadLength(|payload|);
    var code := payload + Fill(Padding(|payload|), 0);
    var bytes := donor[..codePos] + code + Fill(BOOT_TAIL, 0);
    if |code| + BOOT_TAIL >= WORD { return None; }
    var one := Patch(bytes, CODE_LEN_OFF, |code|);
    var two := Patch(one, TOTAL_LEN_OFF, |code| + BOOT_TAIL);
    PatchedTwice(bytes, |code|, |code| + BOOT_TAIL);
    WrappedParts(donor, payload, codePos, code, bytes, two);
    image := Some(two);
  }

  /** -n % CODE_ALIGN. */
  function Padding(n: nat): nat
  {
    (CODE_ALIGN - n % CODE_ALIGN) % CODE_ALIGN
  }

  /** Padding reaches the next multiple of 1024, if n is not one. */
  lemma PadLength(n: nat)
    ensures n + Padding(n) == Padded(n) && Padded(n) % 1024 == 0 && n <= Padded(n) < n + 1024
  {
  }

  /** Donor verbatim up to its boot code but for the two length fields, then the payload
      padded with zeros, then a zero tail; both fields read back the new lengths. */
  ghost predicate Wrapped(donor: seq<Byte>, payload: seq<Byte>, image: seq<Byte>)
    requires |donor| >= TOTAL_LEN_OFF + 4
  {
    var codePos, codeLen := 0x2000 + AuxLen(donor), Padded(|payload|);
    && codePos <= |donor| && |image| == codePos + codeLen + 0x200
    && (forall i :: 0 <= i < codePos && !(0x404 <= i < 0x40C) ==> image[i] == donor[i])
    && Crc32.FromLe32(image[0x404..0x408]) == codeLen
    && Crc32.FromLe32(image[0x408..0x40C]) == codeLen + 0x200
    && |payload| <= codeLen && image[codePos..codePos + |payload|] == payload
    && (forall i :: codePos + |payload| <= i < |image| ==> image[i] == 0)
  }

  lemma PatchedTwice(s: seq<Byte>, a: nat, b: nat)
    requires |s| >= KEY_AREA && a < WORD && b < WORD
    ensures var t := Patch(Patch(s, CODE_LEN_OFF, a), TOTAL_LEN_OFF, b);
            && |t| == |s|
            && (forall i :: 0 <= i < |s| && !(CODE_LEN_OFF <= i < TOTAL_LEN_OFF + 4) ==> t[i] == s[i])
            && Crc32.FromLe32(t[CODE_LEN_OFF..CODE_LEN_OFF + 4]) == a
            && Crc32.FromLe32(t[TOTAL_LEN_OFF..TOTAL_LEN_OFF + 4]) == b
  {
    hide Crc32.Le32, Crc32.FromLe32;
    var one := Patch(s, CODE_LEN_OFF, a);
    var t := Patch(one, TOTAL_LEN_OFF, b);
    Crc32.Le32RoundTrip(a);
    Crc32.Le32RoundTrip(b);
    assert t[CODE_LEN_OFF..CODE_LEN_OFF + 4] == one[CODE_LEN_OFF..CODE_LEN_OFF + 4] == Crc32.Le32(a);
    assert t[TOTAL_LEN_OFF..TOTAL_LEN_OFF + 4] == Crc32.Le32(b);
  }

  lemma WrappedParts(donor: seq<Byte>, payload: seq<Byte>, codePos: nat, code: seq<Byte>, bytes: seq<Byte>,
                     image: seq<Byte>)
    requires |donor| >= TOTAL_LEN_OFF + 4 && codePos == KEY_AREA + AuxLen(donor) <= |donor|
    requires code == payload + Fill(Padding(|payload|), 0) && |code| == Padded(|payload|)
    requires bytes == donor[..codePos] + code + Fill(BOOT_TAIL, 0) && |image| == |bytes|
    requires forall i :: 0 <= i < |bytes| && !(CODE_LEN_OFF <= i < TOTAL_LEN_OFF + 4) ==> image[i] == bytes[i]
    requires Crc32.FromLe32(image[CODE_LEN_OFF..CODE_LEN_OFF + 4]) == |code|
    requires Crc32.FromLe32(image[TOTAL_LEN_OFF..TOTAL_LEN_OFF + 4]) == |code| + BOOT_TAIL
    ensures Wrapped(donor, payload, image)
  {
    hide AuxLen, Padded, Padding, Crc32.FromLe32;
    assert forall i :: codePos <= i < |bytes| ==> image[i] == (code + Fill(BOOT_TAIL, 0))[i - codePos];
  }

  /** A wrapped payload that was sent: success on a drained line means the boot ROM has
      the donor's DDR-init area verbatim, and the image with the payload in its boot
      code. */
  method Recover(line: Line, donor: seq<Byte>, payload: seq<Byte>, loadAddr: nat)
    returns (success: bool, image: Option<seq<Byte>>)
    requires |donor| < WORD && |payload| < WORD
    modifies line
    ensures success ==> Accepted(donor, loadAddr) && image.Some? && Wrapped(donor, payload, image.value)
    ensures success && NoFalseAck(old(line.fates)) && Drained(old(line.View()), FirmwareFrames(image.value)) ==>
              line.rom.areas == old(line.rom.areas)
                 + [Area(0, image.value[..KEY_AREA]), Area(KEY_AREA, donor[KEY_AREA..KEY_AREA + AuxLen(donor)]),
                    Area(BOOT_LOAD_ADDR, image.value)]
  {
    image := WrapPayload(donor, payload, loadAddr);
    if image.None? || |image.value| >= WORD { return false, image; }
    AuxVerbatim(donor, payload, image.value);
    hide Wrapped, Padded, AuxLen, NoFalseAck, Drained, FirmwareFrames, SendFrames;
    success := SendFirmware(line, image.value);
  }

  lemma AuxVerbatim(donor: seq<Byte>, payload: seq<Byte>, image: seq<Byte>)
    requires |donor| >= TOTAL_LEN_OFF + 4 && Wrapped(donor, payload, image)
    ensures AreasOf(image) == [Area(0, image[..KEY_AREA]), Area(KEY_AREA, donor[KEY_AREA..KEY_AREA + AuxLen(donor)]),
                               Area(BOOT_LOAD_ADDR, image)]
  {
    hide Crc32.FromLe32, Padded;
    assert image[AUX_LEN_OFF..AUX_LEN_OFF + 4] == donor[AUX_LEN_OFF..AUX_LEN_OFF + 4];
    var aux := AuxLen(donor);
    assert image[KEY_AREA..KEY_AREA + aux] == donor[KEY_AREA..KEY_AREA + aux];
    assert image[0..KEY_AREA] == image[..KEY_AREA];
  }
}
