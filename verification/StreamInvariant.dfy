/** What holds in every reachable state of a flash stream, and that every step
    keeps it. */
module StreamInvariant {
  import opened Bits
  import opened Framing
  import opened Nor
  import opened StreamModel
  import opened Tiling

  // ---- Geometry --------------------------------------------------------------

  lemma SectorCount(c: Config, s: nat)
    requires c.sector > 0
    ensures s < c.Sectors() <==> s * c.sector < |c.image|
    ensures s < c.Sectors() ==> c.Lo(s) == s * c.sector && |c.Data(s)| > 0
    ensures s >= c.Sectors() ==> c.Lo(s) == |c.image| && |c.Data(s)| == 0
  {
    hide Pieces, Upto;
    PieceBounds(|c.image|, c.sector, s);
  }

  lemma NextLo(c: Config, s: nat)
    ensures c.Lo(s + 1) == c.Hi(s)
  {
    assert (s + 1) * c.sector == s * c.sector + c.sector;
  }

  /** The covered sectors lie inside the flash. */
  lemma CoverFits(c: Config)
    requires c.Valid() && c.Accepted()
    ensures c.addr + c.Sectors() * c.sector <= |c.cells|
  {
    AlignedRoom(c);
    hide *;
    SectorCount(c, 0);
    SectorCount(c, c.Sectors() - 1);
    Exact(c.addr, c.sector);
    Exact(|c.cells|, c.sector);
    RoomFor(c.addr / c.sector, |c.cells| / c.sector, c.Sectors(), c.sector, |c.image|);
  }

  lemma AlignedRoom(c: Config)
    requires c.Valid() && c.Accepted()
    ensures c.sector > 0 && c.addr % c.sector == 0 && |c.cells| % c.sector == 0
    ensures 0 < |c.image| <= |c.cells| - c.addr
  {
    hide Config.Sectors, Config.Bitmap;
  }

  lemma Exact(n: nat, q: nat)
    requires q > 0 && n % q == 0
    ensures n == n / q * q
  {
  }

  lemma RoomFor(a: nat, m: nat, n: nat, q: nat, len: nat)
    requires n > 0 && (n - 1) * q < len && a * q + len <= m * q
    ensures a * q + n * q <= m * q
  {
    assert (a + n - 1) * q == a * q + (n - 1) * q;
    assert (a + n) * q == a * q + n * q;
    if a + n > m { MulLe(m, a + n - 1, q); } else { MulLe(a + n, m, q); }
  }

  // ---- The bitmap ------------------------------------------------------------

  lemma {:induction false} BitmapTest(c: Config, m: nat, s: nat)
    requires c.sector > 0 && m <= c.Sectors() && s < c.Sectors()
    ensures Bit(c.BitmapUpTo(m)[s / 8], s % 8) <==> s < m && !AllFf(c.Data(s))
    decreases m
  {
    hide Config.Sectors, Config.Data, AllFf, Bit, SetBit;
    if m == 0 {
      ZeroBit(s % 8);
    } else {
      BitmapTest(c, m - 1, s);
      var t := m - 1;
      if s / 8 == t / 8 { SetBitTest(c.BitmapUpTo(t)[t / 8], t % 8, s % 8); }
    }
  }

  lemma {:induction false} ZeroBit(k: nat)
    ensures !Bit(0, k)
  {
    if k > 0 { ZeroBit(k - 1); }
  }

  /** The bit the agent tests is set exactly for a sector with data in it. */
  lemma BitmapExact(c: Config, s: nat)
    requires c.sector > 0 && c.bitmap == c.Bitmap()
    ensures c.Flagged(s) <==> s < c.Sectors() && !AllFf(c.Data(s))
  {
    hide Config.Sectors, Config.Data, Config.BitmapUpTo, AllFf, Bit;
    if s < c.Sectors() { BitmapTest(c, c.Sectors(), s); }
  }

  /** DATA packet k of sector s: command 0x82, its place in the image counted in 512 bytes, which
      fits two bytes, low byte first, and the bytes from there on. */
  lemma PacketOnWire(c: Config, s: nat, k: nat)
    requires c.Valid() && s < c.Sectors() && k < c.Packets(s)
    ensures var at := s * c.sector + k * 512;
            && at < |c.image| && k * 512 < c.sector && at / 512 < 65536
            && c.DataPacket(s, k)
               == Packet(0x82, [at / 512 % 256, at / 512 / 256]
                               + c.image[at..if at + 512 <= |c.image| then at + 512 else |c.image|])
  {
    assert c.sector > 0 && c.sector % 512 == 0 && |c.image| <= 33554432;
    hide Config.Valid, Config.Flagged;
    PieceBounds(|c.image|, c.sector, s);
    var lo, d, m := s * c.sector, c.Data(s), c.sector / 512;
    assert c.Lo(s) == lo;
    InSector(|d|, k);
    InSector(|c.image| - lo, k);
    Whole(s, m, k);
    assert c.sector == m * 512;
    NextChunk(c.sector, k);
    ChunkIs(c, s, k, lo);
    TwoBytes(lo + k * 512);
  }

  lemma TwoBytes(at: nat)
    requires at < 33554432
    ensures at / 512 < 65536 && at / 512 / 256 % 256 == at / 512 / 256
  {
  }

  lemma InSector(n: nat, k: nat)
    ensures k < (n + 511) / 512 <==> k * 512 < n
  {
  }

  lemma NextChunk(sector: nat, k: nat)
    requires sector % 512 == 0 && k * 512 < sector
    ensures k * 512 + 512 <= sector
  {
  }

  lemma Whole(s: nat, m: nat, k: nat)
    ensures (s * (m * 512) + k * 512) / 512 == s * (m * 512) / 512 + k
  {
    assert s * (m * 512) == s * m * 512;
    DivModBy(s * m * 512 + k * 512, 512, s * m + k, 0);
    DivModBy(s * m * 512, 512, s * m, 0);
  }

  lemma ChunkIs(c: Config, s: nat, k: nat, lo: nat)
    requires c.Lo(s) == lo && k * 512 < |c.Data(s)| && k * 512 + 512 <= c.sector
    ensures lo + k * 512 < |c.image|
    ensures var at := lo + k * 512;
            c.ChunkAt(s, k) == c.image[at..if at + 512 <= |c.image| then at + 512 else |c.image|]
  {
    hide Config.Lo;
  }

  /** The bitmap the host makes does not depend on the one in the command. */
  lemma SameBitmap(c: Config, b: seq<Byte>, m: nat)
    requires c.sector > 0 && m <= c.Sectors()
    ensures c.(bitmap := b).BitmapUpTo(m) == c.BitmapUpTo(m)
  {
    hide Config.BitmapUpTo, Config.Sectors;
    assert c.(bitmap := b).Sectors() == c.Sectors() by { SameGeometry(c, b); }
    SameBitmaps(c, c.(bitmap := b), m);
  }

  lemma SameGeometry(c: Config, b: seq<Byte>)
    requires c.sector > 0
    ensures c.(bitmap := b).Sectors() == c.Sectors()
  {
    hide Pieces;
  }

  lemma {:induction false} SameBitmaps(c: Config, d: Config, m: nat)
    requires c.sector > 0 && d.sector == c.sector && d.image == c.image
    requires m <= c.Sectors() && c.Sectors() == d.Sectors()
    ensures d.BitmapUpTo(m) == c.BitmapUpTo(m)
    decreases m
  {
    hide Config.Sectors, Config.Data, AllFf, MarkByte;
    if m > 0 {
      SameData(c, d, m - 1);
      SameBitmaps(c, d, m - 1);
    }
  }

  lemma SameData(c: Config, d: Config, s: nat)
    requires d.sector == c.sector && d.image == c.image
    ensures d.Data(s) == c.Data(s)
  {
    hide Upto;
  }

  // ---- Packets on the wire -----------------------------------------------------

  lemma {:induction false} GlueSnoc(f: nat -> seq<Byte>, i: nat, k: nat)
    requires i <= k
    ensures Glue(f, i, k + 1) == Glue(f, i, k) + f(k)
    decreases k - i
  {
    if i < k {
      GlueSnoc(f, i + 1, k);
    } else {
      assert Glue(f, k + 1, k + 1) == [];
    }
  }

  /** A DATA packet is at most 522 encoded bytes plus the delimiter. */
  lemma PacketSize(c: Config, s: nat, k: nat)
    ensures |c.Frames(s)(k)| <= 523
  {
    FrameShape(c.DataPacket(s, k));
  }

  lemma {:induction false} WireSize(c: Config, s: nat, i: nat, k: nat)
    requires i <= k
    ensures |c.WireOf(s, i, k)| <= 523 * (k - i)
    decreases k - i
  {
    if i < k {
      PacketSize(c, s, i);
      WireSize(c, s, i + 1, k);
    }
  }

  // ---- The flash ---------------------------------------------------------------

  /** The flash when exactly the first m sectors are final. */
  ghost function Final(c: Config, m: nat): (f: seq<Byte>)
    requires c.page > 0 && m * c.sector >= c.Lo(m) && c.addr + m * c.sector <= |c.cells|
    ensures |f| == |c.cells|
  {
    Splice(c.cells, c.addr, StoredPages(c.image[..c.Lo(m)], c.page) + Fill(m * c.sector - c.Lo(m), 255))
  }

  lemma {:induction false} StoredFf(data: seq<Byte>, page: nat)
    requires page > 0 && AllFf(data)
    ensures StoredPages(data, page) == Fill(|data|, 255)
    decreases |data|
  {
    if |data| > page { StoredFf(data[page..], page); }
  }

  /** Rewriting the next sector with its data, or erasing it when it has none. */
  lemma FinalNext(c: Config, m: nat)
    requires c.Valid() && c.Accepted() && m < c.Sectors()
    requires c.addr + (m + 1) * c.sector <= |c.cells| && (m + 1) * c.sector == m * c.sector + c.sector
    ensures Splice(Final(c, m), c.addr + m * c.sector, SectorAfter(c.Data(m), c.sector, c.page)) == Final(c, m + 1)
    ensures AllFf(c.Data(m)) ==>
              Splice(Final(c, m), c.addr + m * c.sector, Fill(c.sector, 255)) == Final(c, m + 1)
  {
    hide Splice, StoredPages, AllFf, SectorAfter, Config.Sectors;
    SectorCount(c, m);
    NextLo(c, m);
    var done, data, sector := c.image[..c.Lo(m)], c.Data(m), c.sector;
    assert c.image[..c.Lo(m + 1)] == done + data;
    WholePages(m, sector, c.page);
    StoredPagesAppend(done, data, c.page);
    SpliceTwice(c.cells, c.addr, StoredPages(done, c.page), SectorAfter(data, sector, c.page));
    assert StoredPages(done, c.page) + Fill(0, 255) == StoredPages(done, c.page);
    SectorJoins(StoredPages(done, c.page), data, sector, c.page);
    if AllFf(data) { ErasedSector(data, sector, c.page); }
  }

  lemma SectorJoins(done: seq<Byte>, data: seq<Byte>, sector: nat, page: nat)
    requires page > 0 && |data| <= sector
    ensures done + SectorAfter(data, sector, page) == done + StoredPages(data, page) + Fill(sector - |data|, 255)
  {
    hide StoredPages;
  }

  lemma ErasedSector(data: seq<Byte>, sector: nat, page: nat)
    requires page > 0 && |data| <= sector && AllFf(data)
    ensures SectorAfter(data, sector, page) == Fill(sector, 255)
  {
    hide StoredPages;
    StoredFf(data, page);
  }

  lemma WholePages(m: nat, sector: nat, page: nat)
    requires page > 0 && sector % page == 0
    ensures m * sector % page == 0
  {
    var q := sector / page;
    assert sector == q * page;
    assert m * sector == (m * q) * page;
    DivModBy(m * sector, page, m * q, 0);
  }
}
