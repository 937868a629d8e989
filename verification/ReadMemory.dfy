/** CMD_READ: handle_read on the agent streams a region as numbered packets, and
    read_memory on the host puts them back together. */
module ReadMemory {
  import opened Bits
  import opened Framing
  import opened Options
  import opened Tiling

  const MAX_READ := 32 * 1024 * 1024
  /** MAX_PAYLOAD less the two number bytes. */
  const STEP := 1022
  const EMMC_BLOCK := 512
  /** The packet number is 16 bits wide. */
  const NUMBERS := 65536

  /** How the agent gets at the region: as bytes of RAM; through flash_read, whose result it
      ignores, so that a fetch that stalls leaves what it leaves; or block by block from an
      eMMC some of whose blocks cannot be read. */
  datatype Via = Linear | Flash(junk: map<nat, seq<Byte>>) | Emmc(bad: set<nat>)

  function Status(code: Byte): Packet
  {
    Packet(RSP_ACK, [code])
  }

  function Step(via: Via): nat
  {
    if via.Emmc? then EMMC_BLOCK else STEP
  }

  function Numbered(i: nat, bytes: seq<Byte>): Packet
  {
    Packet(RSP_DATA, [i % 256, i / 256 % 256] + bytes)
  }

  /** The number as the packet's first two bytes, low byte first. */
  function NumberBytes(number: nat): seq<Byte>
    requires number < NUMBERS
  {
    [number % 256, number / 256]
  }

  function Next(number: nat): (r: nat)
    ensures r < NUMBERS
  {
    (number + 1) % NUMBERS
  }

  /** Packet i of a region. */
  function Piece(src: seq<Byte>, step: nat, i: nat): Packet
  {
    UptoGrows(|src|, step, i);
    Numbered(i, src[Upto(|src|, step, i)..Upto(|src|, step, i + 1)])
  }

  function JunkAt(junk: seq<Byte>, j: nat): Byte
  {
    if j < |junk| then junk[j] else 0
  }

  /** The bytes that fetch n of the region brings. */
  function Fetched(via: Via, n: nat, bytes: seq<Byte>): (f: seq<Byte>)
    ensures |f| == |bytes|
  {
    if via.Flash? && n in via.junk then seq(|bytes|, j requires 0 <= j => JunkAt(via.junk[n], j)) else bytes
  }

  /** The region as the agent's fetches show it. */
  function Seen(src: seq<Byte>, via: Via): (s: seq<Byte>)
    ensures |s| == |src|
  {
    if via.Flash?
    then seq(|src|, i requires 0 <= i < |src| =>
           if i / STEP in via.junk then JunkAt(via.junk[i / STEP], i % STEP) else src[i])
    else src
  }

  /** No fetch of a region of this size stalls. */
  ghost predicate NoStall(via: Via, size: nat)
  {
    via.Flash? ==> forall n :: n in via.junk ==> n >= Pieces(size, STEP)
  }

  lemma SeenExact(src: seq<Byte>, via: Via)
    requires NoStall(via, |src|)
    ensures Seen(src, via) == src
  {
    hide Pieces;
    if via.Flash? {
      forall i | 0 <= i < |src| ensures i / STEP !in via.junk { FetchOf(|src|, i); }
    }
  }

  lemma FetchOf(size: nat, i: nat)
    requires i < size
    ensures i / STEP < Pieces(size, STEP)
  {
    PieceBounds(size, STEP, i / STEP);
  }

  /** Whatever a stalled fetch leaves, the agent sees the region, exactly when none of the
      stalled fetches is one of the region's. */
  lemma StallsDecide(src: seq<Byte>, stalls: set<nat>)
    ensures (forall junk: map<nat, seq<Byte>> :: junk.Keys == stalls ==> Seen(src, Flash(junk)) == src)
       <==> (forall n :: n in stalls ==> n >= Pieces(|src|, STEP))
  {
    hide Pieces;
    if n :| n in stalls && n < Pieces(|src|, STEP) {
      PieceBounds(|src|, STEP, n);
      var at := n * STEP;
      var other: Byte := if src[at] == 0 then 1 else 0;
      var junk: map<nat, seq<Byte>> := map k | k in stalls :: [other];
      DivModBy(at, STEP, n, 0);
      assert junk.Keys == stalls && Seen(src, Flash(junk))[at] == other;
    } else {
      forall junk: map<nat, seq<Byte>> | junk.Keys == stalls ensures Seen(src, Flash(junk)) == src {
        SeenExact(src, Flash(junk));
      }
    }
  }

  /** Piece n of what is seen is what fetch n brought. */
  lemma SeenPiece(src: seq<Byte>, via: Via, n: nat)
    requires n < Pieces(|src|, Step(via))
    ensures var u, v := Upto(|src|, Step(via), n), Upto(|src|, Step(via), n + 1);
            u <= v && Seen(src, via)[u..v] == Fetched(via, n, src[u..v])
  {
    var step := Step(via);
    PieceBounds(|src|, step, n);
    var u, v := Upto(|src|, step, n), Upto(|src|, step, n + 1);
    if via.Flash? {
      var x, y := Seen(src, via)[u..v], Fetched(via, n, src[u..v]);
      forall j | 0 <= j < v - u ensures x[j] == y[j] { DivModBy(u + j, STEP, n, j); }
    }
  }

  /** What the agent may send for an accepted request: pieces in order, then a status;
      success only after all of them. */
  ghost predicate Streams(src: seq<Byte>, step: nat, sent: seq<Packet>)
    requires step > 0
  {
    && 0 < |sent| <= Pieces(|src|, step) + 1
    && (forall i :: 0 <= i < |sent| - 1 ==> sent[i] == Piece(src, step, i))
    && (sent[|sent| - 1] == Status(ACK_OK) || sent[|sent| - 1] == Status(ACK_FLASH_ERROR))
    && (sent[|sent| - 1] == Status(ACK_OK) ==> |sent| == Pieces(|src|, step) + 1)
  }

  lemma PieceOnWire(src: seq<Byte>, step: nat, i: nat)
    requires i * step < |src|
    ensures Piece(src, step, i)
         == Packet(0x82, [i % 256, i / 256 % 256]
                         + src[i * step..if i * step + step <= |src| then i * step + step else |src|])
  {
    assert (i + 1) * step == i * step + step;
  }

  /** Packet i of what is sent: its number in two bytes, low byte first, and from 1022 * i on
      the next 1022 bytes, or what is left of them; from eMMC 512. The last packet is a status. */
  lemma ReadOnWire(src: seq<Byte>, via: Via, sent: seq<Packet>, i: nat)
    requires Streams(src, Step(via), sent) && i < |sent|
    ensures var n := if via.Emmc? then 512 else 1022;
            if i < |sent| - 1 then
              && i * n < |src|
              && sent[i] == Packet(0x82, [i % 256, i / 256 % 256]
                                         + src[i * n..if i * n + n <= |src| then i * n + n else |src|])
            else sent[i] == Packet(0x83, [0x00]) || sent[i] == Packet(0x83, [0x02])
  {
    hide Piece, Pieces;
    if i < |sent| - 1 {
      PieceBounds(|src|, Step(via), i);
      PieceOnWire(src, Step(via), i);
    }
  }

  predicate Rejected(addr: nat, size: nat, via: Via, readable: bool)
  {
    size == 0 || size > MAX_READ || !readable
    || (via.Emmc? && (addr % EMMC_BLOCK != 0 || size % EMMC_BLOCK != 0))
  }

  function BlockOf(addr: nat): nat
  {
    addr / EMMC_BLOCK
  }

  /** None of the n blocks from block b on is unreadable. */
  ghost predicate Clean(via: Via, b: nat, n: nat)
  {
    via.Emmc? ==> forall x :: b <= x < b + n ==> x !in via.bad
  }

  /** handle_read. `readable` is the address whitelist's answer. */
  method HandleRead(mem: seq<Byte>, addr: nat, size: nat, via: Via, readable: bool) returns (sent: seq<Packet>)
    requires readable ==> addr + size <= |mem|
    ensures Rejected(addr, size, via, readable) ==> sent == [Status(ACK_FLASH_ERROR)]
    ensures !Rejected(addr, size, via, readable) ==>
              && Streams(Seen(mem[addr..addr + size], via), Step(via), sent)
              && (sent[|sent| - 1] == Status(ACK_OK) <==> Clean(via, BlockOf(addr), BlockOf(size)))
  {
    hide Streams, Clean, BlockOf, Seen;
    if size == 0 || size > MAX_READ || !readable { return [Status(ACK_FLASH_ERROR)]; }
    if via.Emmc? && (addr % EMMC_BLOCK != 0 || size % EMMC_BLOCK != 0) { return [Status(ACK_FLASH_ERROR)]; }
    sent := StreamRegion(mem, addr, size, via);
  }

  /** Its packet loop. */
  method StreamRegion(mem: seq<Byte>, addr: nat, size: nat, via: Via) returns (sent: seq<Packet>)
    requires addr + size <= |mem| && !Rejected(addr, size, via, true)
    ensures Streams(Seen(mem[addr..addr + size], via), Step(via), sent)
    ensures sent[|sent| - 1] == Status(ACK_OK) <==> Clean(via, BlockOf(addr), BlockOf(size))
  {
    hide BlockOf, Upto, Pieces, Piece, Clean, NumberBytes, Next, Seen, Fetched;
    ghost var src, step := Seen(mem[addr..addr + size], via), Step(via);
    var number: nat, offset: nat := 0, 0;
    sent := [];
    PieceBounds(size, step, 0);
    CleanNone(via, BlockOf(addr));
    while offset < size
      invariant offset == Upto(size, step, |sent|) && |sent| <= Pieces(size, step)
      invariant number == |sent| % NUMBERS
      invariant forall i :: 0 <= i < |sent| ==> sent[i] == Piece(src, step, i)
      invariant Clean(via, BlockOf(addr), |sent|)
      decreases size - offset
    {
      ghost var n := |sent|;
      PieceBounds(size, step, n);
      CleanNext(via, addr, size, n);
      var chunk := size - offset;
      if chunk > STEP { chunk := STEP; }
      if via.Emmc? {
        if chunk > EMMC_BLOCK { chunk := EMMC_BLOCK; }
        if BlockOf(addr + offset) in via.bad { return sent + [Status(ACK_FLASH_ERROR)]; }
      }
      SeenNext(mem, addr, size, via, n, chunk);
      var bytes := Fetched(via, |sent|, mem[addr + offset..addr + offset + chunk]);
      sent := sent + [Packet(RSP_DATA, NumberBytes(number) + bytes)];
      offset := offset + chunk;
      NextNumber(n);
      number := Next(number);
    }
    PieceBounds(size, step, |sent|);
    CleanAll(via, addr, size);
    sent := sent + [Status(ACK_OK)];
  }

  lemma CleanNone(via: Via, b: nat)
    ensures Clean(via, b, 0)
  {
  }

  lemma CleanNext(via: Via, addr: nat, size: nat, n: nat)
    requires Clean(via, BlockOf(addr), n) && n < Pieces(size, Step(via))
    requires via.Emmc? ==> addr % EMMC_BLOCK == 0 && size % EMMC_BLOCK == 0
    ensures var block := BlockOf(addr + Upto(size, Step(via), n));
            if !via.Emmc? || block !in via.bad then Clean(via, BlockOf(addr), n + 1)
            else !Clean(via, BlockOf(addr), BlockOf(size))
  {
    if via.Emmc? { BlockNumber(addr, size, n); }
  }

  lemma CleanAll(via: Via, addr: nat, size: nat)
    requires via.Emmc? ==> size % EMMC_BLOCK == 0
    requires Clean(via, BlockOf(addr), Pieces(size, Step(via)))
    ensures Clean(via, BlockOf(addr), BlockOf(size))
  {
    if via.Emmc? { BlockCount(size); }
  }

  lemma BlockCount(size: nat)
    requires size % EMMC_BLOCK == 0
    ensures Pieces(size, EMMC_BLOCK) == size / EMMC_BLOCK
  {
  }

  lemma BlockNumber(addr: nat, size: nat, n: nat)
    requires addr % EMMC_BLOCK == 0 && size % EMMC_BLOCK == 0 && n < Pieces(size, EMMC_BLOCK)
    ensures (addr + Upto(size, EMMC_BLOCK, n)) / EMMC_BLOCK == addr / EMMC_BLOCK + n
    ensures addr / EMMC_BLOCK + n < addr / EMMC_BLOCK + size / EMMC_BLOCK
  {
    PieceBounds(size, EMMC_BLOCK, n);
  }

  lemma SliceOf(mem: seq<Byte>, addr: nat, size: nat, lo: nat, chunk: nat)
    requires addr + size <= |mem| && lo + chunk <= size
    ensures mem[addr..addr + size][lo..lo + chunk] == mem[addr + lo..addr + lo + chunk]
  {
    var x, y := mem[addr..addr + size][lo..lo + chunk], mem[addr + lo..addr + lo + chunk];
    assert |x| == |y| && forall i :: 0 <= i < |x| ==> x[i] == y[i];
  }

  lemma NextPiece(mem: seq<Byte>, addr: nat, size: nat, step: nat, n: nat, chunk: nat)
    requires addr + size <= |mem| && step > 0 && n < Pieces(size, step)
    requires chunk == if size - Upto(size, step, n) > step then step else size - Upto(size, step, n)
    ensures Upto(size, step, n + 1) == Upto(size, step, n) + chunk
    ensures var at := addr + Upto(size, step, n);
            Piece(mem[addr..addr + size], step, n)
            == Packet(RSP_DATA, NumberBytes(n % NUMBERS) + mem[at..at + chunk])
  {
    PieceBounds(size, step, n);
    SameNumber(n);
    var lo := Upto(size, step, n);
    assert (n + 1) * step == n * step + step;
    SliceOf(mem, addr, size, lo, chunk);
  }

  lemma SeenNext(mem: seq<Byte>, addr: nat, size: nat, via: Via, n: nat, chunk: nat)
    requires addr + size <= |mem| && n < Pieces(size, Step(via))
    requires var lo := Upto(size, Step(via), n); chunk == if size - lo > Step(via) then Step(via) else size - lo
    ensures Upto(size, Step(via), n + 1) == Upto(size, Step(via), n) + chunk
    ensures var at := addr + Upto(size, Step(via), n);
            Piece(Seen(mem[addr..addr + size], via), Step(via), n)
            == Packet(RSP_DATA, NumberBytes(n % NUMBERS) + Fetched(via, n, mem[at..at + chunk]))
  {
    hide Seen, Fetched, Pieces;
    var src := mem[addr..addr + size];
    NextPiece(mem, addr, size, Step(via), n, chunk);
    SeenPiece(src, via, n);
    var lo := Upto(size, Step(via), n);
    SliceOf(mem, addr, size, lo, chunk);
    SameNumber(n);
  }

  lemma SameNumber(i: nat)
    ensures i % NUMBERS % 256 == i % 256 && i % NUMBERS / 256 == i / 256 % 256
    ensures i % 256 + 256 * (i / 256 % 256) == i % NUMBERS
  {
  }

  // ---- The host -----------------------------------------------------------------------

  function NumberOf(p: Packet): nat
    requires |p.data| > 2
  {
    var lo: int, hi: int := p.data[0], p.data[1];
    lo + 256 * hi
  }

  /** What read_memory makes of the replies it gets, in the order it gets them; None
      is one of its exceptions, or a timeout when the replies stop. */
  function Collect(size: nat, replies: seq<Packet>, received: seq<Byte>, expected: nat): Option<seq<Byte>>
    decreases |replies|
  {
    if replies == [] then None
    else
      var p := replies[0];
      if p.cmd == RSP_DATA && |p.data| > 2 then
        if NumberOf(p) != expected then None
        else Collect(size, replies[1..], received + p.data[2..], Next(expected))
      else if p.cmd == RSP_ACK && (p.data == [] || p.data[0] == ACK_OK) && |received| == size then Some(received)
      else None
  }

  /** The receive loop of read_memory. */
  method ReadReplies(size: nat, replies: seq<Packet>) returns (result: Option<seq<Byte>>)
    ensures result == Collect(size, replies, [], 0)
  {
    var received: seq<Byte>, expected: nat, i := [], 0, 0;
    assert replies[0..] == replies;
    while i < |replies|
      invariant 0 <= i <= |replies|
      invariant Collect(size, replies[i..], received, expected) == Collect(size, replies, [], 0)
    {
      var p := replies[i];
      assert replies[i..][1..] == replies[i + 1..];
      if p.cmd == RSP_DATA && |p.data| > 2 {
        if NumberOf(p) != expected { return None; }
        received := received + p.data[2..];
        expected := Next(expected);
      } else if p.cmd == RSP_ACK {
        var status := if p.data != [] then p.data[0] else 0;
        if status != ACK_OK { return None; }
        if |received| != size { return None; }
        return Some(received);
      } else {
        return None;
      }
      i := i + 1;
    }
    result := None;
  }

  // ---- Any replies the channel can make of what was sent ------------------------------

  /** Every delivered packet is one that was sent: packets may be lost, repeated and
      overtaken. */
  ghost predicate Delivered(sent: seq<Packet>, replies: seq<Packet>)
  {
    forall p :: p in replies ==> p in sent
  }

  lemma PieceNumber(src: seq<Byte>, step: nat, i: nat)
    requires step > 0 && i < Pieces(|src|, step)
    ensures |Piece(src, step, i).data| > 2 && NumberOf(Piece(src, step, i)) == i % NUMBERS
  {
    PieceBounds(|src|, step, i);
    SameNumber(i);
  }

  /** The next piece extends the bytes received so far. */
  lemma PieceExtends(src: seq<Byte>, step: nat, k: nat)
    requires step > 0 && k < Pieces(|src|, step)
    ensures src[..Upto(|src|, step, k)] + Piece(src, step, k).data[2..] == src[..Upto(|src|, step, k + 1)]
  {
    PieceBounds(|src|, step, k);
    var a, b := Upto(|src|, step, k), Upto(|src|, step, k + 1);
    assert Piece(src, step, k).data[2..] == src[a..b];
  }

  /** While at most 65536 packets make up the region, whatever the host accepts next is
      the next piece, or it already has more bytes than it asked for. */
  lemma {:induction false} CollectSound(src: seq<Byte>, step: nat, sent: seq<Packet>, replies: seq<Packet>,
                                        received: seq<Byte>, k: nat)
    requires step > 0 && Streams(src, step, sent) && Delivered(sent, replies) && Pieces(|src|, step) <= NUMBERS
    requires (k <= Pieces(|src|, step) && received == src[..Upto(|src|, step, k)]) || |received| > |src|
    ensures var r := Collect(|src|, replies, received, k % NUMBERS); r.Some? ==> r.value == src
    decreases |replies|
  {
    hide Pieces, Upto, Piece, NumberOf;
    PieceBounds(|src|, step, k);
    if replies != [] && replies[0].cmd == RSP_DATA && |replies[0].data| > 2 && NumberOf(replies[0]) == k % NUMBERS {
      var p := replies[0];
      assert p in sent;
      var i :| 0 <= i < |sent| && sent[i] == p;
      assert p == Piece(src, step, i);
      PieceNumber(src, step, i);
      NextNumber(k);
      if |received| <= |src| {
        if k < Pieces(|src|, step) {
          assert i == k;
          PieceExtends(src, step, k);
        }
      }
      CollectSound(src, step, sent, replies[1..], received + p.data[2..], k + 1);
    }
  }

  lemma NextNumber(k: nat)
    ensures Next(k % NUMBERS) == (k + 1) % NUMBERS
    ensures k < NUMBERS ==> k % NUMBERS == k
  {
    var q, r := k / NUMBERS, k % NUMBERS;
    if r + 1 < NUMBERS { DivModBy(k + 1, NUMBERS, q, r + 1); } else { DivModBy(k + 1, NUMBERS, q + 1, 0); }
  }

  /** When every packet arrives once and in order, the host has the region. */
  lemma {:induction false} CollectComplete(src: seq<Byte>, step: nat, sent: seq<Packet>, k: nat)
    requires step > 0 && Streams(src, step, sent) && sent[|sent| - 1] == Status(ACK_OK) && k < |sent|
    ensures Collect(|src|, sent[k..], src[..Upto(|src|, step, k)], k % NUMBERS) == Some(src)
    decreases |sent| - k
  {
    hide Upto, Pieces, NumberOf;
    PieceBounds(|src|, step, k);
    assert sent[k..][0] == sent[k] && sent[k..][1..] == sent[k + 1..];
    if k < |sent| - 1 {
      PieceNumber(src, step, k);
      PieceExtends(src, step, k);
      NextNumber(k);
      CollectComplete(src, step, sent, k + 1);
    } else {
      assert src[..|src|] == src;
    }
  }

  /** Within the agent's cap the 16-bit numbers are distinct, on every path. */
  lemma CapKeepsNumbersDistinct(size: nat, via: Via, i: nat, j: nat)
    requires size <= MAX_READ && i < j < Pieces(size, Step(via))
    ensures i % NUMBERS != j % NUMBERS
  {
    PiecesBounded(size, via);
  }

  lemma PiecesBounded(size: nat, via: Via)
    requires size <= MAX_READ
    ensures Pieces(size, Step(via)) <= NUMBERS
  {
    if via.Emmc? { assert (size + 511) / 512 <= 65536; }
  }

  /** src with the `step` bytes at m overwritten by its first ones. */
  ghost function Patched(src: seq<Byte>, m: nat, step: nat): (r: seq<Byte>)
    requires |src| >= m + step
    ensures |r| == |src|
  {
    src[..m] + src[..step] + src[m + step..]
  }

  lemma PatchedSlice(src: seq<Byte>, m: nat, step: nat, a: nat, b: nat)
    requires a <= b <= |src| && m + step <= |src|
    ensures b <= m || a >= m + step ==> Patched(src, m, step)[a..b] == src[a..b]
    ensures a == m && b == m + step ==> Patched(src, m, step)[a..b] == src[..step]
  {
    var x := Patched(src, m, step)[a..b];
    if b <= m || a >= m + step { assert forall j :: 0 <= j < |x| ==> x[j] == src[a..b][j]; }
    if a == m && b == m + step { assert forall j :: 0 <= j < |x| ==> x[j] == src[..step][j]; }
  }

  lemma PatchedPiece(src: seq<Byte>, step: nat, i: nat)
    requires step > 0 && |src| >= NUMBERS * step + step && i < Pieces(|src|, step)
    ensures Piece(Patched(src, NUMBERS * step, step), step, i)
         == if i == NUMBERS then Piece(src, step, 0) else Piece(src, step, i)
  {
    PieceBounds(|src|, step, i);
    PieceBounds(|src|, step, 0);
    var m := NUMBERS * step;
    assert (i + 1) * step == i * step + step;
    if i < NUMBERS { MulLe(i + 1, NUMBERS, step); } else if i > NUMBERS { MulLe(NUMBERS + 1, i, step); }
    hide Patched, Pieces;
    PatchedSlice(src, m, step, Upto(|src|, step, i), Upto(|src|, step, i + 1));
  }

  /** Without the cap the numbers repeat, and a packet that overtakes by a full cycle
      goes unnoticed: right length, wrong bytes. */
  lemma CapNeeded(src: seq<Byte>, step: nat, sent: seq<Packet>)
    requires step > 0 && Streams(src, step, sent) && sent[|sent| - 1] == Status(ACK_OK)
    requires |src| >= NUMBERS * step + step && src[..step] != src[NUMBERS * step..NUMBERS * step + step]
    ensures exists replies :: Delivered(sent, replies)
                              && Collect(|src|, replies, [], 0).Some? && Collect(|src|, replies, [], 0).value != src
  {
    hide Piece, Pieces, Collect, Patched;
    var other := Patched(src, NUMBERS * step, step);
    PieceBounds(|src|, step, NUMBERS);
    PieceBounds(|src|, step, 0);
    var replies := sent[NUMBERS := sent[0]];
    forall i | 0 <= i < |replies| - 1 ensures replies[i] == Piece(other, step, i) { PatchedPiece(src, step, i); }
    PatchedSlice(src, NUMBERS * step, step, NUMBERS * step, NUMBERS * step + step);
    CollectComplete(other, step, replies, 0);
    assert replies[0..] == replies && other[..0] == [];
  }

  /** A READ over a channel that loses, repeats and reorders the replies (picks lists
      which of them arrive, in order): the host raises or has exactly what the agent's
      fetches showed, which is the region when none of them stalls. */
  method Transfer(mem: seq<Byte>, addr: nat, size: nat, via: Via, readable: bool, picks: seq<nat>)
    returns (result: Option<seq<Byte>>)
    requires readable ==> addr + size <= |mem|
    ensures result.Some? ==> readable && result.value == Seen(mem[addr..addr + size], via)
    ensures result.Some? && NoStall(via, size) ==> result.value == mem[addr..addr + size]
  {
    hide Streams, Clean, BlockOf, Pieces, Seen, NoStall;
    var sent := HandleRead(mem, addr, size, via, readable);
    var replies := [];
    for i := 0 to |picks|
      invariant Delivered(sent, replies)
    {
      if picks[i] < |sent| { replies := replies + [sent[picks[i]]]; }
    }
    result := ReadReplies(size, replies);
    if Rejected(addr, size, via, readable) {
      assert replies != [] ==> replies[0] in sent;
    } else {
      PiecesBounded(size, via);
      CollectSound(Seen(mem[addr..addr + size], via), Step(via), sent, replies, [], 0);
      if NoStall(via, size) { SeenExact(mem[addr..addr + size], via); }
    }
  }

  /** Undisturbed, every READ of 1 to 33554432 bytes of readable blocks succeeds (from eMMC,
      of whole 512-byte blocks): also one whose fetches stalled, with what they left in place
      of the region. */
  method Undisturbed(mem: seq<Byte>, addr: nat, size: nat, via: Via) returns (result: Option<seq<Byte>>)
    requires addr + size <= |mem| && 1 <= size <= 33554432
    requires via.Emmc? ==> addr % 512 == 0 && size % 512 == 0
    requires Clean(via, BlockOf(addr), BlockOf(size))
    ensures result == Some(Seen(mem[addr..addr + size], via))
    ensures NoStall(via, size) ==> result == Some(mem[addr..addr + size])
  {
    hide Seen, NoStall;
    var sent := HandleRead(mem, addr, size, via, true);
    result := ReadReplies(size, sent);
    assert sent[0..] == sent;
    var src := mem[addr..addr + size];
    CollectComplete(Seen(src, via), Step(via), sent, 0);
    if NoStall(via, size) { SeenExact(src, via); }
  }

  /** One stalled fetch in a 4-byte read of erased flash: the agent sends what was left in
      its buffer, here zeros, then OK, and the host returns them. */
  lemma StalledRead() returns (sent: seq<Packet>)
    ensures var erased: seq<Byte>, via := [255, 255, 255, 255], Flash(map[0 := []]);
            && !Rejected(0, 4, via, true) && Streams(Seen(erased, via), Step(via), sent)
            && sent[|sent| - 1] == Status(ACK_OK) && Clean(via, BlockOf(0), BlockOf(4))
            && Collect(4, sent, [], 0) == Some([0, 0, 0, 0])
  {
    hide Streams, Collect, Piece, Clean;
    var via := Flash(map[0 := []]);
    ZerosSeen(via);
    assert Clean(via, BlockOf(0), BlockOf(4)) by { NotEmmc(via); }
    sent := [Piece([0, 0, 0, 0], STEP, 0), Status(ACK_OK)];
    OnePiece([0, 0, 0, 0]);
  }

  lemma ZerosSeen(via: Via)
    requires via == Flash(map[0 := []])
    ensures Seen([255, 255, 255, 255], via) == [0, 0, 0, 0]
  {
    var s := Seen([255, 255, 255, 255], via);
    assert |s| == 4 && s[0] == 0 && s[1] == 0 && s[2] == 0 && s[3] == 0;
  }

  lemma NotEmmc(via: Via)
    requires !via.Emmc?
    ensures Clean(via, BlockOf(0), BlockOf(4))
  {
  }

  lemma OnePiece(s: seq<Byte>)
    requires |s| == 4
    ensures var sent := [Piece(s, STEP, 0), Status(ACK_OK)];
            Streams(s, STEP, sent) && Collect(4, sent, [], 0) == Some(s)
  {
    hide Collect, Piece;
    var sent := [Piece(s, STEP, 0), Status(ACK_OK)];
    assert Pieces(4, STEP) == 1;
    CollectComplete(s, STEP, sent, 0);
    assert sent[0..] == sent && Upto(4, STEP, 0) == 0 && s[..0] == [];
  }
}
