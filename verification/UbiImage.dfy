/** UBI images built block by block from the header layouts (the format strings of
    src/defib/ubi.py), and what extraction gives for them. */
module UbiImage {
  import opened BigEndian
  import opened Bits
  import opened Nor
  import opened Options
  import U = Ubi

  /** The parts of a block that extraction does not look at: version, padding and erase
      counter; image sequence and checksum; what lies between the headers; version, type,
      copy flag and compatibility; sizes, sequence number and checksum; what lies between
      the second header and the data. */
  datatype Slack = Slack(counter: seq<Byte>, tail: seq<Byte>, gap: seq<Byte>,
                         kind: seq<Byte>, rest: seq<Byte>, pad: seq<Byte>)
  {
    predicate Valid()
    {
      |counter| == 12 && |tail| == 40 && |kind| == 4 && |rest| == 48
    }
  }

  /** A physical block: a logical block of a volume, or anything else. */
  datatype Physical = Mapping(volume: nat, lnum: nat, payload: seq<Byte>, slack: Slack) | Foreign(bytes: seq<Byte>)
  {
    /** A foreign block is no UBI block, or one that holds no volume header where it says. */
    predicate Valid(peb: nat)
    {
      |Bytes()| == peb >= 64 &&
      match this
      case Mapping(volume, lnum, _, slack) => slack.Valid() && volume < 0x1_0000_0000 && lnum < 0x1_0000_0000
      case Foreign(bytes) =>
        || bytes[..4] != [0x55, 0x42, 0x49, 0x23]
        || (var at := FromBe32(bytes[16..20]);
            at + 64 <= peb && bytes[at..at + 4] != [0x55, 0x42, 0x49, 0x21])
    }

    function Bytes(): seq<Byte>
    {
      match this
      case Mapping(volume, lnum, payload, f) =>
        EcHeader(f, 64 + |f.gap|, 128 + |f.gap| + |f.pad|) + f.gap + VidHeader(f, volume, lnum) + f.pad + payload
      case Foreign(bytes) => bytes
    }

    /** Logical block l of volume vol. */
    predicate Is(vol: nat, l: nat)
    {
      Mapping? && volume == vol && lnum == l
    }
  }

  function EcHeader(f: Slack, vid: nat, data: nat): seq<Byte>
  {
    [0x55, 0x42, 0x49, 0x23] + f.counter + Be32(vid) + Be32(data) + f.tail
  }

  function VidHeader(f: Slack, volume: nat, lnum: nat): seq<Byte>
  {
    [0x55, 0x42, 0x49, 0x21] + f.kind + Be32(volume) + Be32(lnum) + f.rest
  }

  /** The image: the blocks one after another. */
  function Image(blocks: seq<Physical>): seq<Byte>
  {
    if blocks == [] then [] else Image(blocks[..|blocks| - 1]) + blocks[|blocks| - 1].Bytes()
  }

  // ---- One block -------------------------------------------------------------------------------

  lemma EcFields(f: Slack, vid: nat, data: nat)
    requires f.Valid()
    ensures var h := EcHeader(f, vid, data);
            |h| == 64 && h[0..4] == [0x55, 0x42, 0x49, 0x23] && h[16..20] == Be32(vid) && h[20..24] == Be32(data)
  {
    hide Be32;
  }

  lemma VidFields(f: Slack, volume: nat, lnum: nat)
    requires f.Valid()
    ensures var h := VidHeader(f, volume, lnum);
            |h| == 64 && h[0..4] == [0x55, 0x42, 0x49, 0x21] && h[8..12] == Be32(volume) && h[12..16] == Be32(lnum)
  {
    hide Be32;
  }

  /** The parts of a five-part sequence. */
  lemma Parts(a: seq<Byte>, b: seq<Byte>, c: seq<Byte>, d: seq<Byte>, e: seq<Byte>)
    ensures var s, at := a + b + c + d + e, |a| + |b|;
            s[0..|a|] == a && s[at..at + |c|] == c && s[at + |c| + |d|..] == e
  {
  }

  /** What extraction sees in such a block. */
  lemma BlockSeen(b: Physical, peb: nat, vol: nat)
    requires b.Valid(peb) && peb < 0x1_0000_0000
    ensures U.Contained(b.Bytes())
    ensures U.LebAt(b.Bytes(), peb, vol, 0)
         == if b.Mapping? && b.volume == vol then Some(U.Leb(b.lnum, b.payload)) else None
  {
    var p := b.Bytes();
    hide FromBe32, Be32, EcHeader, VidHeader;
    assert p[0..4] == p[..4];
    match b
    case Foreign(_) =>
    case Mapping(volume, lnum, payload, f) =>
      var vid, data := 64 + |f.gap|, 128 + |f.gap| + |f.pad|;
      EcFields(f, vid, data);
      VidFields(f, volume, lnum);
      Parts(EcHeader(f, vid, data), f.gap, VidHeader(f, volume, lnum), f.pad, payload);
      HeaderIn(p, 0, EcHeader(f, vid, data));
      HeaderIn(p, vid, VidHeader(f, volume, lnum));
      assert p[data..peb] == payload;
      Be32RoundTrip(vid);
      Be32RoundTrip(data);
      Be32RoundTrip(volume);
      Be32RoundTrip(lnum);
  }

  lemma HeaderIn(p: seq<Byte>, at: nat, h: seq<Byte>)
    requires |h| == 64 && at + 64 <= |p| && p[at..at + 64] == h
    ensures p[at..at + 4] == h[0..4] && p[at + 8..at + 12] == h[8..12] && p[at + 12..at + 16] == h[12..16]
    ensures p[at + 16..at + 20] == h[16..20] && p[at + 20..at + 24] == h[20..24]
  {
    U.Within(p, at, 64, 0, 4);
    U.Within(p, at, 64, 8, 12);
    U.Within(p, at, 64, 12, 16);
    U.Within(p, at, 64, 16, 20);
    U.Within(p, at, 64, 20, 24);
  }

  // ---- The whole image ---------------------------------------------------------------------------

  /** Whole blocks, the first one with the UBI magic; volume vol has each logical number once
      and logical blocks of `size` bytes. */
  ghost predicate Layout(blocks: seq<Physical>, peb: nat, vol: nat, size: nat)
  {
    && 0 < size && |blocks| > 0 && 64 <= peb < 0x1_0000_0000
    && (forall i :: 0 <= i < |blocks| ==> blocks[i].Valid(peb))
    && (blocks[0].Foreign? ==> |blocks[0].bytes| >= 4 && blocks[0].bytes[..4] == [0x55, 0x42, 0x49, 0x23])
    && (forall i :: 0 <= i < |blocks| && blocks[i].Mapping? && blocks[i].volume == vol ==> |blocks[i].payload| == size)
    && (forall i, j, l :: 0 <= i < j < |blocks| && blocks[i].Is(vol, l) ==> !blocks[j].Is(vol, l))
  }

  lemma Steps(i: nat, n: nat, peb: nat)
    requires i < n
    ensures i * peb + peb <= n * peb && n * peb == (n - 1) * peb + peb
  {
    MulLe(i + 1, n, peb);
    assert (i + 1) * peb == i * peb + peb;
  }

  lemma {:induction false} ImageLength(blocks: seq<Physical>, peb: nat)
    requires forall j :: 0 <= j < |blocks| ==> |blocks[j].Bytes()| == peb
    ensures |Image(blocks)| == |blocks| * peb
    decreases |blocks|
  {
    hide *;
    if blocks != [] {
      var n := |blocks| - 1;
      ImageLength(blocks[..n], peb);
      Steps(n, |blocks|, peb);
      ImageLast(blocks);
    } else {
      ImageNone();
    }
  }

  lemma ImageNone()
    ensures Image([]) == []
  {
  }

  lemma ImageLast(blocks: seq<Physical>)
    requires blocks != []
    ensures Image(blocks) == Image(blocks[..|blocks| - 1]) + blocks[|blocks| - 1].Bytes()
  {
  }

  lemma {:induction false} ImageAt(blocks: seq<Physical>, peb: nat, i: nat)
    requires (forall j :: 0 <= j < |blocks| ==> |blocks[j].Bytes()| == peb) && i < |blocks|
    ensures i * peb + peb <= |Image(blocks)| == |blocks| * peb
    ensures Image(blocks)[i * peb..i * peb + peb] == blocks[i].Bytes()
    decreases |blocks|
  {
    hide *;
    var n := |blocks| - 1;
    ImageLength(blocks, peb);
    ImageLength(blocks[..n], peb);
    Steps(i, |blocks|, peb);
    ImageLast(blocks);
    var before, last := Image(blocks[..n]), blocks[n].Bytes();
    if i < n {
      ImageAt(blocks[..n], peb, i);
      U.Prefix(before, last, i * peb, peb);
    } else {
      assert (before + last)[|before|..|before| + peb] == last;
    }
  }

  lemma Counted(blocks: seq<Physical>, tail: seq<Byte>, peb: nat)
    requires (forall j :: 0 <= j < |blocks| ==> |blocks[j].Bytes()| == peb) && |tail| < peb
    ensures U.Count(Image(blocks) + tail, peb) == |blocks|
  {
    hide Image, Physical.Bytes;
    ImageLength(blocks, peb);
    DivModBy(|blocks| * peb + |tail|, peb, |blocks|, |tail|);
  }

  lemma PebIs(blocks: seq<Physical>, tail: seq<Byte>, peb: nat, i: nat)
    requires (forall j :: 0 <= j < |blocks| ==> |blocks[j].Bytes()| == peb) && |tail| < peb && i < |blocks|
    ensures i < U.Count(Image(blocks) + tail, peb) && U.PebAt(Image(blocks) + tail, peb, i) == blocks[i].Bytes()
  {
    hide Image, Physical.Bytes, U.Count;
    Counted(blocks, tail, peb);
    ImageAt(blocks, peb, i);
    U.Prefix(Image(blocks), tail, i * peb, peb);
  }

  lemma EntryIs(image: seq<Byte>, peb: nat, vol: nat, i: nat)
    requires peb >= 64 && i < U.Count(image, peb) && U.Contained(U.PebAt(image, peb, i))
    ensures U.Entry(image, peb, vol, i) == U.LebAt(U.PebAt(image, peb, i), peb, vol, 0)
  {
    hide U.LebAt, U.Contained, U.Count;
    U.InImage(image, peb, i);
    U.Local(image, peb, vol, i * peb);
  }

  ghost predicate Whole(blocks: seq<Physical>, tail: seq<Byte>, peb: nat)
  {
    (forall j :: 0 <= j < |blocks| ==> blocks[j].Valid(peb)) && 64 <= peb < 0x1_0000_0000 && |tail| < peb
  }

  /** Extraction sees the blocks as they were put there, whatever follows the last one. */
  lemma Seen(blocks: seq<Physical>, tail: seq<Byte>, peb: nat, vol: nat, i: nat)
    requires Whole(blocks, tail, peb)
    ensures U.Count(Image(blocks) + tail, peb) == |blocks|
    ensures i < |blocks| ==>
              && U.PebAt(Image(blocks) + tail, peb, i) == blocks[i].Bytes()
              && U.Contained(blocks[i].Bytes())
              && U.Entry(Image(blocks) + tail, peb, vol, i)
                 == if blocks[i].Mapping? && blocks[i].volume == vol
                    then Some(U.Leb(blocks[i].lnum, blocks[i].payload)) else None
  {
    forall j | 0 <= j < |blocks| ensures |blocks[j].Bytes()| == peb { assert blocks[j].Valid(peb); }
    hide Physical.Bytes, Physical.Valid, U.LebAt, U.Contained, Image, U.Count, U.PebAt, U.Entry;
    Counted(blocks, tail, peb);
    if i < |blocks| {
      PebIs(blocks, tail, peb, i);
      BlockSeen(blocks[i], peb, vol);
      EntryIs(Image(blocks) + tail, peb, vol, i);
    }
  }

  lemma FirstIsUbi(blocks: seq<Physical>, tail: seq<Byte>, peb: nat, vol: nat, size: nat)
    requires Layout(blocks, peb, vol, size)
    ensures U.IsUbi(Image(blocks) + tail)
  {
    var b := blocks[0];
    assert b.Bytes()[..4] == [0x55, 0x42, 0x49, 0x23];
    ImageAt(blocks, peb, 0);
    assert 0 * peb == 0;
    assert Image(blocks)[0..peb] == b.Bytes();
    assert (Image(blocks) + tail)[..4] == Image(blocks)[0..peb][..4];
  }

  lemma LayoutDistinct(blocks: seq<Physical>, tail: seq<Byte>, peb: nat, vol: nat, size: nat)
    requires Layout(blocks, peb, vol, size) && |tail| < peb
    ensures U.Distinct(Image(blocks) + tail, peb, vol)
  {
    hide Image, U.Entry, U.Contained, U.PebAt, U.Count, Physical.Valid, U.IsUbi;
    var image := Image(blocks) + tail;
    Seen(blocks, tail, peb, vol, 0);
    forall i, j | 0 <= i < j < |blocks| && U.Entry(image, peb, vol, i).Some? && U.Entry(image, peb, vol, j).Some?
      ensures U.Entry(image, peb, vol, i).value.lnum != U.Entry(image, peb, vol, j).value.lnum
    {
      Seen(blocks, tail, peb, vol, i);
      Seen(blocks, tail, peb, vol, j);
      assert blocks[i].Is(vol, blocks[i].lnum);
      assert !blocks[j].Is(vol, blocks[i].lnum);
    }
  }

  lemma LayoutWellFormed(blocks: seq<Physical>, tail: seq<Byte>, peb: nat, vol: nat, size: nat)
    requires Layout(blocks, peb, vol, size) && |tail| < peb
    ensures peb >= 64 && U.WellFormed(Image(blocks) + tail, peb, vol, size)
  {
    FirstIsUbi(blocks, tail, peb, vol, size);
    assert blocks[0].Valid(peb);
    LayoutDistinct(blocks, tail, peb, vol, size);
    hide Physical.Valid, Image, U.Entry, U.Contained, U.PebAt, U.Count, U.IsUbi, U.Distinct, Physical.Is;
    var image := Image(blocks) + tail;
    Seen(blocks, tail, peb, vol, 0);
    forall i | 0 <= i < |blocks|
      ensures U.Contained(U.PebAt(image, peb, i))
      ensures U.Entry(image, peb, vol, i).Some? ==> |U.Entry(image, peb, vol, i).value.data| == size
    {
      Seen(blocks, tail, peb, vol, i);
    }
  }

  // ---- The volume --------------------------------------------------------------------------------

  predicate Erased(bytes: seq<Byte>)
  {
    forall i :: 0 <= i < |bytes| ==> bytes[i] == 255
  }

  ghost predicate Held(blocks: seq<Physical>, vol: nat, l: nat)
  {
    exists i :: 0 <= i < |blocks| && blocks[i].Is(vol, l)
  }

  /** Logical block l: the payload of the physical block that holds it, 0xFF where none does. */
  ghost predicate Content(blocks: seq<Physical>, vol: nat, size: nat, l: nat, bytes: seq<Byte>)
  {
    && |bytes| == size && (!Held(blocks, vol, l) ==> Erased(bytes))
    && (forall i :: 0 <= i < |blocks| && blocks[i].Is(vol, l) ==> bytes == blocks[i].payload)
  }

  /** The first k logical blocks in order; what is left out behind them is erased, and the
      last of them, unless it is the only one, is held and not erased. */
  ghost predicate InOrder(blocks: seq<Physical>, vol: nat, size: nat, k: nat, out: seq<Byte>)
  {
    && k > 0 && |out| == k * size
    && (forall l: nat :: l < k ==>
          l * size + size <= |out| && Content(blocks, vol, size, l, out[l * size..l * size + size]))
    && (forall i :: 0 <= i < |blocks| && blocks[i].Mapping? && blocks[i].volume == vol && blocks[i].lnum >= k ==>
          Erased(blocks[i].payload))
    && (k > 1 ==> exists i :: 0 <= i < |blocks| && blocks[i].Is(vol, k - 1) && !Erased(blocks[i].payload))
  }

  /** m maps the logical numbers of volume vol to their payloads. */
  ghost predicate Maps(blocks: seq<Physical>, vol: nat, m: map<nat, seq<Byte>>)
  {
    && (forall i :: 0 <= i < |blocks| && blocks[i].Mapping? && blocks[i].volume == vol ==>
          blocks[i].lnum in m && m[blocks[i].lnum] == blocks[i].payload)
    && (forall l :: l in m ==> Held(blocks, vol, l))
  }

  lemma IsMapped(blocks: seq<Physical>, tail: seq<Byte>, peb: nat, vol: nat, i: nat)
    requires Whole(blocks, tail, peb) && U.Distinct(Image(blocks) + tail, peb, vol)
    requires i < |blocks| && blocks[i].Mapping? && blocks[i].volume == vol
    ensures U.Count(Image(blocks) + tail, peb) == |blocks|
    ensures var m := U.Mapped(Image(blocks) + tail, peb, vol, |blocks|);
            blocks[i].lnum in m && m[blocks[i].lnum] == blocks[i].payload
  {
    hide Image, U.Entry, U.Count, U.Mapped, U.Distinct, Whole;
    Seen(blocks, tail, peb, vol, i);
    var leb := U.Leb(blocks[i].lnum, blocks[i].payload);
    assert U.Occurs(Image(blocks) + tail, peb, vol, |blocks|, leb);
    U.MappedIs(Image(blocks) + tail, peb, vol, |blocks|, leb);
  }

  lemma MappedHeld(blocks: seq<Physical>, tail: seq<Byte>, peb: nat, vol: nat, l: nat)
    requires Whole(blocks, tail, peb) && U.Count(Image(blocks) + tail, peb) == |blocks|
    requires l in U.Mapped(Image(blocks) + tail, peb, vol, |blocks|)
    ensures Held(blocks, vol, l)
  {
    assert peb >= 64;
    hide Image, U.Entry, U.Count, U.Mapped, Whole;
    var image := Image(blocks) + tail;
    U.MappedOccurs(image, peb, vol, |blocks|, l);
    var i :| 0 <= i < |blocks|
             && U.Entry(image, peb, vol, i) == Some(U.Leb(l, U.Mapped(image, peb, vol, |blocks|)[l]));
    Seen(blocks, tail, peb, vol, i);
    assert blocks[i].Is(vol, l);
  }

  lemma MappedMaps(blocks: seq<Physical>, tail: seq<Byte>, peb: nat, vol: nat, size: nat)
    requires Layout(blocks, peb, vol, size) && |tail| < peb
    ensures U.Count(Image(blocks) + tail, peb) == |blocks|
    ensures Maps(blocks, vol, U.Mapped(Image(blocks) + tail, peb, vol, |blocks|))
  {
    LayoutDistinct(blocks, tail, peb, vol, size);
    assert Whole(blocks, tail, peb);
    hide Layout, Image, U.Entry, U.Count, U.Mapped, U.Distinct, Whole, Held;
    Seen(blocks, tail, peb, vol, 0);
    forall i | 0 <= i < |blocks| && blocks[i].Mapping? && blocks[i].volume == vol
      ensures blocks[i].lnum in U.Mapped(Image(blocks) + tail, peb, vol, |blocks|)
      ensures U.Mapped(Image(blocks) + tail, peb, vol, |blocks|)[blocks[i].lnum] == blocks[i].payload
    {
      IsMapped(blocks, tail, peb, vol, i);
    }
    forall l | l in U.Mapped(Image(blocks) + tail, peb, vol, |blocks|) ensures Held(blocks, vol, l) {
      MappedHeld(blocks, tail, peb, vol, l);
    }
  }

  lemma ContentIs(blocks: seq<Physical>, vol: nat, size: nat, m: map<nat, seq<Byte>>, l: nat)
    requires Maps(blocks, vol, m) && U.Uniform(m, size)
    ensures Content(blocks, vol, size, l, U.LebOr(m, size, l))
    ensures !AllFf(U.LebOr(m, size, l)) ==>
              exists i :: 0 <= i < |blocks| && blocks[i].Is(vol, l) && !Erased(blocks[i].payload)
  {
    if l in m { assert Held(blocks, vol, l); }
  }

  lemma ErasedIs(bytes: seq<Byte>)
    ensures AllFf(bytes) <==> Erased(bytes)
  {
  }

  lemma OrderIs(blocks: seq<Physical>, vol: nat, size: nat, m: map<nat, seq<Byte>>, n: nat)
    requires Maps(blocks, vol, m) && U.Uniform(m, size) && n > 0 && forall l :: l in m ==> l < n
    ensures var k := U.Kept(m, size, n); InOrder(blocks, vol, size, k, U.Assembled(m, size, k))
  {
    hide U.Assembled, U.LebOr, AllFf, Erased, Held, Content;
    var k := U.Kept(m, size, n);
    var out := U.Assembled(m, size, k);
    U.AssembledLength(m, size, k);
    forall l: nat | l < k
      ensures l * size + size <= |out| && Content(blocks, vol, size, l, out[l * size..l * size + size])
    {
      U.AssembledAt(m, size, k, l);
      ContentIs(blocks, vol, size, m, l);
    }
    forall i | 0 <= i < |blocks| && blocks[i].Mapping? && blocks[i].volume == vol && blocks[i].lnum >= k
      ensures Erased(blocks[i].payload)
    {
      HeldIs(m, size, blocks[i].lnum);
      ErasedIs(blocks[i].payload);
    }
    if k > 1 { ContentIs(blocks, vol, size, m, k - 1); }
  }

  lemma HeldIs(m: map<nat, seq<Byte>>, size: nat, l: nat)
    requires l in m
    ensures U.LebOr(m, size, l) == m[l]
  {
  }

  /** Extraction of an image of whole blocks, in any physical order, with blocks of other
      volumes and foreign blocks anywhere between them and anything shorter than a block
      behind them, gives the payloads of the volume's blocks in logical order. */
  lemma ExtractsPayloads(blocks: seq<Physical>, tail: seq<Byte>, peb: nat, vol: nat, size: nat)
    returns (k: nat, out: seq<Byte>)
    requires Layout(blocks, peb, vol, size) && |tail| < peb
    ensures (forall l :: !Held(blocks, vol, l)) ==> U.Extraction(Image(blocks) + tail, peb, vol) == U.NoLebs
    ensures (exists l :: Held(blocks, vol, l)) ==>
              && InOrder(blocks, vol, size, k, out)
              && U.Extraction(Image(blocks) + tail, peb, vol)
                 == if |out| >= 4 && out[..4] == [0x31, 0x18, 0x10, 0x06] then U.Volume(out) else U.NotUbifs
  {
    LayoutWellFormed(blocks, tail, peb, vol, size);
    var image := Image(blocks) + tail;
    hide Layout, U.WellFormed, Image, U.Extraction, U.Mapped, InOrder, U.Kept, U.Assembled, U.Count, U.Uniform;
    MappedMaps(blocks, tail, peb, vol, size);
    var m := U.Mapped(image, peb, vol, |blocks|);
    U.WellFormedVolume(image, peb, vol, size);
    U.UniformMapping(image, peb, vol, size);
    k, out := 0, [];
    if m != map[] {
      k := U.Kept(m, size, U.Max(m.Keys) + 1);
      out := U.Assembled(m, size, k);
      OrderIs(blocks, vol, size, m, U.Max(m.Keys) + 1);
    }
  }
}
