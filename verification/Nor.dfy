/** NOR flash as the agent sees it: erase sets a sector to 0xFF, programming can
    only clear bits, and both 0xFF shortcuts of the agent are in force. */
module Nor {
  import opened Bits
  import opened Options

  predicate AllFf(s: seq<Byte>)
  {
    forall i :: 0 <= i < |s| ==> s[i] == 255
  }

  /** The part page_is_ff looks at: whole 32-bit words. */
  function Words(s: seq<Byte>): seq<Byte>
  {
    s[..|s| / 4 * 4]
  }

  function Programmed(was: seq<Byte>, data: seq<Byte>): (s: seq<Byte>)
    requires |was| == |data|
    ensures |s| == |data|
  {
    seq(|data|, i requires 0 <= i < |data| => And(was[i], data[i]))
  }

  /** What one page-sized chunk leaves in erased cells. */
  function Stored(chunk: seq<Byte>): (s: seq<Byte>)
    ensures |s| == |chunk|
  {
    if AllFf(Words(chunk)) then Fill(|chunk|, 255) else chunk
  }

  function StoredPages(data: seq<Byte>, page: nat): (s: seq<Byte>)
    requires page > 0
    ensures |s| == |data|
    decreases |data|
  {
    if |data| <= page then Stored(data) else Stored(data[..page]) + StoredPages(data[page..], page)
  }

  lemma {:induction false} StoredPagesAppend(a: seq<Byte>, b: seq<Byte>, page: nat)
    requires page > 0 && |a| % page == 0
    ensures StoredPages(a + b, page) == StoredPages(a, page) + StoredPages(b, page)
    decreases |a|
  {
    hide *;
    if a == [] {
      assert a + b == b;
      assert StoredPages(a, page) == [];
    } else {
      AtLeastOnePage(|a|, page);
      var a', first := a[page..], Stored(a[..page]);
      StoredPagesAppend(a', b, page);
      OnePage(a, page);
      OnePage(a + b, page);
      assert (a + b)[..page] == a[..page] && (a + b)[page..] == a' + b;
      assert first + (StoredPages(a', page) + StoredPages(b, page))
          == first + StoredPages(a', page) + StoredPages(b, page);
    }
  }

  lemma OnePage(a: seq<Byte>, page: nat)
    requires page > 0 && |a| >= page
    ensures StoredPages(a, page) == Stored(a[..page]) + StoredPages(a[page..], page)
  {
    if |a| == page {
      assert a[..page] == a && a[page..] == [];
    }
  }

  lemma AtLeastOnePage(n: nat, page: nat)
    requires page > 0 && n > 0 && n % page == 0
    ensures n >= page && (n - page) % page == 0
  {
    if n < page { DivModBy(n, page, 0, n); }
    assert n == n / page * page;
    DivModBy(n - page, page, n / page - 1, 0);
  }

  /** Where the last, possibly partial, page of n bytes starts. */
  function LastPage(n: nat, page: nat): (p: nat)
    requires page > 0
    ensures p <= n
  {
    n / page * page
  }

  /** Only the bytes past the last whole word of the last page can be lost: they
      are when every whole word in front of them in that page is 0xFF. */
  predicate TailLost(data: seq<Byte>, page: nat)
    requires page > 0
  {
    |data| % 4 != 0 && LooksErased(data[LastPage(|data|, page)..])
  }

  /** Whole words of 0xFF followed by other bytes. */
  predicate LooksErased(chunk: seq<Byte>)
  {
    AllFf(Words(chunk)) && !AllFf(chunk[|chunk| / 4 * 4..])
  }

  lemma StoredExact(chunk: seq<Byte>)
    ensures Stored(chunk) == chunk <==> !LooksErased(chunk)
    ensures |chunk| % 4 == 0 ==> Stored(chunk) == chunk
  {
    var w, t := Words(chunk), chunk[|chunk| / 4 * 4..];
    assert chunk == w + t;
    if AllFf(w) && !AllFf(t) {
      var i :| 0 <= i < |t| && t[i] != 255;
      assert chunk[|w| + i] != 255;
    }
    if AllFf(w) && AllFf(t) { assert chunk == Fill(|chunk|, 255); }
  }

  /** The stored bytes are the data exactly when no tail is lost; in particular
      for every length that is a multiple of four. */
  lemma {:induction false} StoredPagesExact(data: seq<Byte>, page: nat)
    requires page > 0 && page % 4 == 0
    ensures StoredPages(data, page) == data <==> !TailLost(data, page)
    decreases |data|
  {
    hide *;
    if |data| < page {
      StoredLastPage(data, page);
    } else {
      var a, b := data[..page], data[page..];
      StoredExact(a);
      OnePage(data, page);
      StoredPagesExact(b, page);
      SameTail(data, page);
      SamePrefix(a, StoredPages(b, page), b);
      assert data == a + b;
    }
  }

  lemma StoredLastPage(data: seq<Byte>, page: nat)
    requires page > 0 && |data| < page
    ensures StoredPages(data, page) == data <==> !TailLost(data, page)
  {
    DivModBy(|data|, page, 0, |data|);
    assert data[0..] == data;
    StoredExact(data);
  }

  lemma SameTail(data: seq<Byte>, page: nat)
    requires page > 0 && page % 4 == 0 && |data| >= page
    ensures TailLost(data, page) == TailLost(data[page..], page)
  {
    hide LastPage, LooksErased;
    PagesShift(|data|, page);
    SuffixOfSuffix(data, page, LastPage(|data| - page, page));
  }

  lemma SuffixOfSuffix(data: seq<Byte>, a: nat, b: nat)
    requires a + b <= |data|
    ensures data[a..][b..] == data[b + a..]
  {
  }

  lemma SamePrefix(a: seq<Byte>, x: seq<Byte>, b: seq<Byte>)
    ensures a + x == a + b <==> x == b
  {
    if a + x == a + b {
      assert x == (a + x)[|a|..];
      assert b == (a + b)[|a|..];
    }
  }

  lemma PagesShift(n: nat, page: nat)
    requires page > 0 && n >= page
    ensures LastPage(n, page) == LastPage(n - page, page) + page
  {
    DivModBy(n, page, (n - page) / page + 1, (n - page) % page);
  }

  /** cells with [at, at+|mid|) replaced. */
  function Splice(cells: seq<Byte>, at: nat, mid: seq<Byte>): (s: seq<Byte>)
    requires at + |mid| <= |cells|
    ensures |s| == |cells|
  {
    cells[..at] + mid + cells[at + |mid|..]
  }

  lemma SpliceTwice(cells: seq<Byte>, at: nat, a: seq<Byte>, b: seq<Byte>)
    requires at + |a| + |b| <= |cells|
    ensures Splice(Splice(cells, at, a), at + |a|, b) == Splice(cells, at, a + b)
  {
  }

  /** cells after programming data over [at, at+|data|). */
  function Burnt(cells: seq<Byte>, at: nat, data: seq<Byte>): (s: seq<Byte>)
    requires at + |data| <= |cells|
    ensures |s| == |cells|
  {
    Splice(cells, at, Programmed(cells[at..at + |data|], data))
  }

  lemma BurntMore(cells: seq<Byte>, at: nat, data: seq<Byte>, n: nat, m: nat)
    requires n <= m <= |data| && at + m <= |cells|
    ensures Burnt(Burnt(cells, at, data[..n]), at + n, data[n..m]) == Burnt(cells, at, data[..m])
  {
    var a := Burnt(cells, at, data[..n]);
    var x, y := Burnt(a, at + n, data[n..m]), Burnt(cells, at, data[..m]);
    forall i | 0 <= i < |x| ensures x[i] == y[i] {
      BurntAt(cells, at, data[..n], i);
      BurntAt(a, at + n, data[n..m], i);
      BurntAt(cells, at, data[..m], i);
    }
  }

  lemma BurntAt(cells: seq<Byte>, at: nat, data: seq<Byte>, i: nat)
    requires at + |data| <= |cells| && i < |cells|
    ensures Burnt(cells, at, data)[i] == if at <= i < at + |data| then And(cells[i], data[i - at]) else cells[i]
  {
  }

  lemma BurntNone(cells: seq<Byte>, at: nat, data: seq<Byte>)
    requires at <= |cells|
    ensures Burnt(cells, at, data[..0]) == cells
  {
  }

  /** A rewritten sector: the stored data, then 0xFF to the end of the sector. */
  function SectorAfter(data: seq<Byte>, sector: nat, page: nat): (s: seq<Byte>)
    requires page > 0 && |data| <= sector
    ensures |s| == sector
  {
    StoredPages(data, page) + Fill(sector - |data|, 255)
  }

  /** A chip with `cells`. */
  class Chip {
    var cells: seq<Byte>

    /** `junk` is what the sector holds when the erase fails its read-back check. */
    method Erase(at: nat, sector: nat, junk: Option<seq<Byte>>) returns (ok: bool)
      requires at + sector <= |cells| && (junk.Some? ==> |junk.value| == sector)
      modifies this
      ensures ok == junk.None? && |cells| == old(|cells|)
      ensures cells == Splice(old(cells), at, if ok then Fill(sector, 255) else junk.value)
    {
      ok := junk.None?;
      cells := Splice(cells, at, if ok then Fill(sector, 255) else junk.value);
    }

    method WritePage(at: nat, data: seq<Byte>)
      requires at + |data| <= |cells|
      modifies this
      ensures cells == Splice(old(cells), at, Programmed(old(cells)[at..at + |data|], data))
    {
      cells := Splice(cells, at, Programmed(cells[at..at + |data|], data));
    }
  }

  /** page_is_ff: one word at a time. */
  method PageIsFf(data: seq<Byte>) returns (ff: bool)
    ensures ff == AllFf(Words(data))
  {
    for i := 0 to |data| / 4
      invariant AllFf(data[..4 * i])
    {
      if !(data[4 * i] == 255 && data[4 * i + 1] == 255 && data[4 * i + 2] == 255 && data[4 * i + 3] == 255) {
        assert exists k :: 0 <= k < |Words(data)| && Words(data)[k] != 255 by {
          var k := if data[4 * i] != 255 then 4 * i else if data[4 * i + 1] != 255 then 4 * i + 1
                   else if data[4 * i + 2] != 255 then 4 * i + 2 else 4 * i + 3;
          assert Words(data)[k] == data[k];
        }
        return false;
      }
    }
    ff := true;
  }

  lemma ProgramErased(data: seq<Byte>)
    ensures Programmed(Fill(|data|, 255), data) == data
  {
    forall i | 0 <= i < |data| ensures Programmed(Fill(|data|, 255), data)[i] == data[i] { AndByte(data[i]); }
  }

  /** The sector at `at` holds `done`, then 0xFF; everything else is as before. */
  ghost predicate Partly(cells: seq<Byte>, before: seq<Byte>, at: nat, done: seq<Byte>, sector: nat)
  {
    && |cells| == |before| && |done| <= sector && at + sector <= |before|
    && forall i :: 0 <= i < |cells| ==>
         cells[i] == if at <= i < at + |done| then done[i - at]
                     else if at + |done| <= i < at + sector then 255 else before[i]
  }

  lemma PartlyIsSplice(cells: seq<Byte>, before: seq<Byte>, at: nat, done: seq<Byte>, sector: nat)
    requires |done| <= sector && at + sector <= |before|
    ensures Partly(cells, before, at, done, sector) <==>
            cells == Splice(before, at, done + Fill(sector - |done|, 255))
  {
  }

  lemma PartlyProgram(cells: seq<Byte>, before: seq<Byte>, at: nat, done: seq<Byte>, sector: nat, chunk: seq<Byte>)
    requires |done| + |chunk| <= sector && Partly(cells, before, at, done, sector)
    ensures at + |done| + |chunk| <= |cells|
    ensures var here := at + |done|;
            Partly(Splice(cells, here, Programmed(cells[here..here + |chunk|], chunk)), before, at,
                   done + chunk, sector)
  {
    var here := at + |done|;
    assert cells[here..here + |chunk|] == Fill(|chunk|, 255);
    ProgramErased(chunk);
  }

  lemma PartlySkip(cells: seq<Byte>, before: seq<Byte>, at: nat, done: seq<Byte>, sector: nat, n: nat)
    requires |done| + n <= sector && Partly(cells, before, at, done, sector)
    ensures Partly(cells, before, at, done + Fill(n, 255), sector)
  {
  }

  /** One pass of the page loop: program the chunk unless it looks erased. */
  method ProgramChunk(chip: Chip, at: nat, chunk: seq<Byte>,
                      ghost before: seq<Byte>, ghost start: nat, ghost done: seq<Byte>, ghost sector: nat)
    requires |done| + |chunk| <= sector && at == start + |done|
    requires Partly(chip.cells, before, start, done, sector)
    modifies chip
    ensures Partly(chip.cells, before, start, done + Stored(chunk), sector)
  {
    hide Partly, AllFf, Words, Splice, Programmed;
    PartlyProgram(chip.cells, before, start, done, sector, chunk);
    PartlySkip(chip.cells, before, start, done, sector, |chunk|);
    var ff := PageIsFf(chunk);
    if !ff { chip.WritePage(at, chunk); }
  }

  /** The page loop of erase_and_program. */
  method ProgramPages(chip: Chip, at: nat, data: seq<Byte>, page: nat, ghost before: seq<Byte>, ghost sector: nat)
    requires page > 0 && |data| <= sector
    requires Partly(chip.cells, before, at, [], sector)
    modifies chip
    ensures Partly(chip.cells, before, at, StoredPages(data, page), sector)
  {
    hide Partly, Stored, StoredPages, PagesDone;
    ghost var done: seq<Byte> := [];
    var offset := 0;
    PagesStart(data, page);
    while offset < |data|
      invariant 0 <= offset <= |data| && |done| == offset
      invariant PagesDone(data, page, done, offset)
      invariant Partly(chip.cells, before, at, done, sector)
    {
      var len := if |data| - offset > page then page else |data| - offset;
      PagesStep(data, page, done, offset, len);
      ProgramChunk(chip, at + offset, data[offset..offset + len], before, at, done, sector);
      done := done + Stored(data[offset..offset + len]);
      offset := offset + len;
    }
    PagesEnd(data, page, done);
  }

  /** erase_and_program: erase the sector, then program every page that is not
      skipped. */
  method EraseAndProgram(chip: Chip, at: nat, data: seq<Byte>, sector: nat, page: nat, junk: Option<seq<Byte>>)
    returns (ok: bool)
    requires page > 0 && |data| <= sector && at + sector <= |chip.cells|
    requires junk.Some? ==> |junk.value| == sector
    modifies chip
    ensures ok == junk.None?
    ensures chip.cells == Splice(old(chip.cells), at, if ok then SectorAfter(data, sector, page) else junk.value)
  {
    ghost var before := chip.cells;
    ok := chip.Erase(at, sector, junk);
    if ok {
      ProgramPages(chip, at, data, page, before, sector);
      PartlyIsSplice(chip.cells, before, at, StoredPages(data, page), sector);
    }
  }

  /** `done` is what data[..offset] leaves behind. */
  ghost predicate PagesDone(data: seq<Byte>, page: nat, done: seq<Byte>, offset: nat)
    requires page > 0
  {
    offset <= |data| && (offset % page == 0 || offset == |data|) && done == StoredPages(data[..offset], page)
  }

  lemma PagesStart(data: seq<Byte>, page: nat)
    requires page > 0
    ensures PagesDone(data, page, [], 0)
  {
  }

  lemma PagesEnd(data: seq<Byte>, page: nat, done: seq<Byte>)
    requires page > 0 && PagesDone(data, page, done, |data|)
    ensures done == StoredPages(data, page)
  {
    assert data[..|data|] == data;
  }

  lemma PagesStep(data: seq<Byte>, page: nat, done: seq<Byte>, offset: nat, len: nat)
    requires page > 0 && offset < |data| && PagesDone(data, page, done, offset)
    requires len == if |data| - offset > page then page else |data| - offset
    ensures PagesDone(data, page, done + Stored(data[offset..offset + len]), offset + len)
  {
    var chunk := data[offset..offset + len];
    assert data[..offset + len] == data[..offset] + chunk;
    StoredPagesAppend(data[..offset], chunk, page);
    StoredShort(chunk, page);
    NextPage(offset, page);
  }

  lemma StoredShort(chunk: seq<Byte>, page: nat)
    requires page > 0 && |chunk| <= page
    ensures StoredPages(chunk, page) == Stored(chunk)
  {
  }

  lemma NextPage(offset: nat, page: nat)
    requires page > 0
    ensures offset % page == 0 ==> (offset + page) % page == 0
  {
    if offset % page == 0 { DivModBy(offset + page, page, offset / page + 1, 0); }
  }
}
