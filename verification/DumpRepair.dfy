/** verify_and_repair (src/defib/flashdump.py): compare a dump file with the copy in
    device RAM by CRC-32, narrow down by blocks, and read differing chunks again. */
module DumpRepair {
  import opened Bits
  import opened Nor
  import opened Options
  import Crc32

  /** The comparison grid: how many bytes, in blocks, in chunks within a block. */
  datatype Grid = Grid(size: nat, block: nat, chunk: nat)
  {
    predicate Valid()
    {
      block > 0 && chunk > 0
    }

    /** The block around off. */
    function Lo(off: nat): (lo: nat)
      requires Valid()
      ensures lo <= off
    {
      off - off % block
    }

    function Hi(off: nat): (hi: nat)
      requires Valid() && off < size
      ensures off < hi <= size
    {
      if Lo(off) + block <= size then Lo(off) + block else size
    }

    /** A chunk starts at off. */
    predicate Starts(off: nat)
      requires Valid()
    {
      off < size && off % block % chunk == 0
    }

    function End(off: nat): (e: nat)
      requires Valid() && off < size
      ensures off < e <= Hi(off)
    {
      if off + chunk <= Hi(off) then off + chunk else Hi(off)
    }
  }

  predicate Differs(a: seq<Byte>, b: seq<Byte>, lo: nat, hi: nat)
    requires lo <= hi <= |a| && |a| == |b|
  {
    Crc32.Crc(0, a[lo..hi]) != Crc32.Crc(0, b[lo..hi])
  }

  /** The chunk at off differs from the device, and so does its block. */
  predicate Bad(g: Grid, data: seq<Byte>, ram: seq<Byte>, off: nat)
    requires g.Valid() && |data| == |ram| == g.size
  {
    g.Starts(off) && Differs(data, ram, g.Lo(off), g.Hi(off)) && Differs(data, ram, off, g.End(off))
  }

  /** i lies in a rewritten chunk. */
  ghost predicate Covered(g: Grid, writes: seq<nat>, i: nat)
    requires g.Valid()
  {
    exists k :: 0 <= k < |writes| && writes[k] <= i && writes[k] < g.size && i < g.End(writes[k])
  }

  /** What was done to the data so far: bad chunks only, each once and in order, each
      now with the device's CRC-32, and nothing else touched. */
  ghost predicate Progress(g: Grid, was: seq<Byte>, now: seq<Byte>, ram: seq<Byte>, writes: seq<nat>)
    requires g.Valid() && |was| == |now| == |ram| == g.size
  {
    && (forall j, k :: 0 <= j < k < |writes| ==> writes[j] < writes[k])
    && (forall k :: 0 <= k < |writes| ==> Bad(g, was, ram, writes[k]))
    && (forall k :: 0 <= k < |writes| ==> !Differs(now, ram, writes[k], g.End(writes[k])))
    && (forall i :: 0 <= i < g.size && now[i] != was[i] ==> Covered(g, writes, i))
  }

  /** Everything bad before p was rewritten, and nothing from p on was touched. */
  ghost predicate Upto(g: Grid, was: seq<Byte>, now: seq<Byte>, ram: seq<Byte>, writes: seq<nat>, p: nat)
    requires g.Valid() && |was| == |now| == |ram| == g.size
  {
    && (forall off :: 0 <= off < p && Bad(g, was, ram, off) ==> off in writes)
    && (forall k :: 0 <= k < |writes| ==> writes[k] < p && writes[k] < g.size && g.End(writes[k]) <= p)
    && (forall i :: p <= i < g.size ==> now[i] == was[i])
  }

  /** Equal CRC-32s of a range mean equal bytes in it. */
  ghost predicate Trust(was: seq<Byte>, ram: seq<Byte>)
    requires |was| == |ram|
  {
    forall lo, hi :: 0 <= lo <= hi <= |was| && !Differs(was, ram, lo, hi) ==> was[lo..hi] == ram[lo..hi]
  }

  /** The first p bytes are the device's. */
  ghost predicate True(now: seq<Byte>, ram: seq<Byte>, p: nat)
  {
    p <= |now| == |ram| && forall i :: 0 <= i < p ==> now[i] == ram[i]
  }

  lemma TrueSkip(was: seq<Byte>, now: seq<Byte>, ram: seq<Byte>, p: nat, q: nat)
    requires |was| == |now| == |ram| && p <= q <= |was| && True(now, ram, p) && Trust(was, ram)
    requires !Differs(was, ram, p, q) && forall i :: p <= i < |was| ==> now[i] == was[i]
    ensures True(now, ram, q)
  {
    hide Differs;
    assert was[p..q] == ram[p..q];
    forall i | p <= i < q ensures now[i] == ram[i] { assert was[p..q][i - p] == ram[p..q][i - p]; }
  }

  lemma TrueWrite(now: seq<Byte>, ram: seq<Byte>, p: nat, q: nat)
    requires True(now, ram, p) && p <= q <= |ram|
    ensures True(Splice(now, p, ram[p..q]), ram, q)
  {
  }

  lemma Start(g: Grid, was: seq<Byte>, ram: seq<Byte>)
    requires g.Valid() && |was| == |ram| == g.size
    ensures Progress(g, was, was, ram, []) && Upto(g, was, was, ram, [], 0)
  {
  }

  lemma SameAhead(was: seq<Byte>, now: seq<Byte>, ram: seq<Byte>, p: nat, lo: nat, hi: nat)
    requires |was| == |now| == |ram| && p <= lo <= hi <= |was|
    requires forall i :: p <= i < |was| ==> now[i] == was[i]
    ensures Differs(now, ram, lo, hi) == Differs(was, ram, lo, hi)
  {
    hide Crc32.Crc;
    assert now[lo..hi] == was[lo..hi];
  }

  /** Nothing bad between p and q. */
  lemma Skip(g: Grid, was: seq<Byte>, now: seq<Byte>, ram: seq<Byte>, writes: seq<nat>, p: nat, q: nat)
    requires g.Valid() && |was| == |now| == |ram| == g.size && p <= q
    requires Upto(g, was, now, ram, writes, p)
    requires forall off :: p <= off < q ==> !Bad(g, was, ram, off)
    ensures Upto(g, was, now, ram, writes, q)
  {
    hide Bad, Grid.End;
  }

  /** A chunk at off was read again with the right CRC-32. */
  lemma Rewrite(g: Grid, was: seq<Byte>, now: seq<Byte>, ram: seq<Byte>, writes: seq<nat>, off: nat, got: seq<Byte>)
    requires g.Valid() && |was| == |now| == |ram| == g.size && Bad(g, was, ram, off) && off < g.size
    requires Progress(g, was, now, ram, writes) && Upto(g, was, now, ram, writes, off)
    requires |got| == g.End(off) - off && Crc32.Crc(0, got) == Crc32.Crc(0, ram[off..g.End(off)])
    requires forall x :: off < x < g.End(off) ==> !Bad(g, was, ram, x)
    ensures var now' := Splice(now, off, got);
            Progress(g, was, now', ram, writes + [off]) && Upto(g, was, now', ram, writes + [off], g.End(off))
  {
    hide Bad, Crc32.Crc, Splice, Progress, Upto, Covered, Differs;
    var now', more := Splice(now, off, got), writes + [off];
    RewriteUpto(g, was, now, ram, writes, off, got);
    RewriteCovered(g, was, now, ram, writes, off, got);
    RewriteMatches(g, was, now, ram, writes, off, got);
    RewriteAll(g, was, now, now', ram, writes, off);
  }

  lemma RewriteUpto(g: Grid, was: seq<Byte>, now: seq<Byte>, ram: seq<Byte>, writes: seq<nat>, off: nat, got: seq<Byte>)
    requires g.Valid() && |was| == |now| == |ram| == g.size && off < g.size
    requires Upto(g, was, now, ram, writes, off) && |got| == g.End(off) - off
    requires forall x :: off < x < g.End(off) ==> !Bad(g, was, ram, x)
    ensures Upto(g, was, Splice(now, off, got), ram, writes + [off], g.End(off))
  {
    hide Bad, Grid.End;
  }

  lemma RewriteCovered(g: Grid, was: seq<Byte>, now: seq<Byte>, ram: seq<Byte>, writes: seq<nat>, off: nat,
                       got: seq<Byte>)
    requires g.Valid() && |was| == |now| == |ram| == g.size && off < g.size
    requires Progress(g, was, now, ram, writes) && |got| == g.End(off) - off
    ensures forall i :: 0 <= i < g.size && Splice(now, off, got)[i] != was[i] ==> Covered(g, writes + [off], i)
  {
    hide Bad, Differs, Grid.End;
    var now', more := Splice(now, off, got), writes + [off];
    forall i | 0 <= i < g.size && now'[i] != was[i] ensures Covered(g, more, i) {
      if off <= i < g.End(off) {
        assert more[|writes|] == off;
      } else {
        var k :| 0 <= k < |writes| && writes[k] <= i && writes[k] < g.size && i < g.End(writes[k]);
        assert more[k] == writes[k];
      }
    }
  }

  lemma RewriteMatches(g: Grid, was: seq<Byte>, now: seq<Byte>, ram: seq<Byte>, writes: seq<nat>, off: nat,
                       got: seq<Byte>)
    requires g.Valid() && |was| == |now| == |ram| == g.size && off < g.size
    requires Progress(g, was, now, ram, writes) && Upto(g, was, now, ram, writes, off)
    requires |got| == g.End(off) - off && Crc32.Crc(0, got) == Crc32.Crc(0, ram[off..g.End(off)])
    ensures var now' := Splice(now, off, got);
            && !Differs(now', ram, off, g.End(off))
            && forall k :: 0 <= k < |writes| ==> writes[k] < g.size && !Differs(now', ram, writes[k], g.End(writes[k]))
  {
    hide Bad, Crc32.Crc, Grid.End;
    var now' := Splice(now, off, got);
    assert now'[off..g.End(off)] == got;
    forall k | 0 <= k < |writes|
      ensures writes[k] < g.size && !Differs(now', ram, writes[k], g.End(writes[k])) {
      assert now'[writes[k]..g.End(writes[k])] == now[writes[k]..g.End(writes[k])];
    }
  }

  lemma RewriteAll(g: Grid, was: seq<Byte>, now: seq<Byte>, now': seq<Byte>, ram: seq<Byte>, writes: seq<nat>, off: nat)
    requires g.Valid() && |was| == |now| == |now'| == |ram| == g.size && Bad(g, was, ram, off) && off < g.size
    requires Progress(g, was, now, ram, writes) && Upto(g, was, now, ram, writes, off)
    requires !Differs(now', ram, off, g.End(off))
    requires forall k :: 0 <= k < |writes| ==> writes[k] < g.size && !Differs(now', ram, writes[k], g.End(writes[k]))
    requires forall i :: 0 <= i < g.size && now'[i] != was[i] ==> Covered(g, writes + [off], i)
    ensures Progress(g, was, now', ram, writes + [off])
  {
    hide Bad, Differs, Covered, Grid.End;
  }

  // ---- The grid's arithmetic ---------------------------------------------------------------

  /** A whole number of chunks lies between boff and off. */
  predicate OnGrid(g: Grid, boff: nat, off: nat)
    requires g.Valid()
  {
    boff <= off && (off - boff) % g.chunk == 0
  }

  lemma GridStart(g: Grid, boff: nat)
    requires g.Valid()
    ensures OnGrid(g, boff, boff)
  {
  }

  lemma GridNext(g: Grid, boff: nat, off: nat)
    requires g.Valid() && OnGrid(g, boff, off)
    ensures OnGrid(g, boff, off + g.chunk)
  {
    DivModBy(off - boff + g.chunk, g.chunk, (off - boff) / g.chunk + 1, 0);
  }

  /** Inside the block that starts at boff, chunks start every `chunk` bytes. */
  lemma InBlock(g: Grid, boff: nat, off: nat)
    requires g.Valid() && boff % g.block == 0 && OnGrid(g, boff, off) && off < boff + g.block && off < g.size
    ensures g.Lo(off) == boff && g.Starts(off)
    ensures g.Hi(off) == if boff + g.block <= g.size then boff + g.block else g.size
    ensures forall x :: off < x < g.End(off) ==> !g.Starts(x)
  {
    OffsetIn(boff, g.block, off);
    var j := (off - boff) / g.chunk;
    forall x | off < x < g.End(off) ensures !g.Starts(x) {
      OffsetIn(boff, g.block, x);
      DivModBy(x - boff, g.chunk, j, x - off);
    }
  }

  lemma OffsetIn(boff: nat, block: nat, off: nat)
    requires block > 0 && boff % block == 0 && boff <= off < boff + block
    ensures off % block == off - boff
  {
    DivModBy(off, block, boff / block, off - boff);
  }

  /** A block whose CRC-32 matches has nothing bad in it. */
  lemma GoodBlock(g: Grid, was: seq<Byte>, ram: seq<Byte>, boff: nat, bend: nat)
    requires g.Valid() && |was| == |ram| == g.size && boff < g.size && boff % g.block == 0
    requires bend == (if boff + g.block <= g.size then boff + g.block else g.size) && !Differs(was, ram, boff, bend)
    ensures forall off :: boff <= off < bend ==> !Bad(g, was, ram, off)
  {
    hide Differs;
    forall off | boff <= off < bend ensures !Bad(g, was, ram, off) { OffsetIn(boff, g.block, off); }
  }

  lemma BetweenStarts(g: Grid, was: seq<Byte>, ram: seq<Byte>, lo: nat, hi: nat)
    requires g.Valid() && |was| == |ram| == g.size && forall x :: lo < x < hi ==> !g.Starts(x)
    ensures forall x :: lo < x < hi ==> !Bad(g, was, ram, x)
  {
    hide Differs, Grid.Starts;
    forall x | lo < x < hi ensures !Bad(g, was, ram, x) { assert !g.Starts(x); }
  }

  lemma NextBlock(boff: nat, block: nat)
    requires block > 0 && boff % block == 0
    ensures (boff + block) % block == 0
  {
    DivModBy(boff + block, block, boff / block + 1, 0);
  }

  // ---- What the coming commands bring --------------------------------------------------------

  /** A script after k of its entries were used. */
  function Rest<T>(script: seq<T>, k: nat): seq<T>
  {
    if k <= |script| then script[k..] else []
  }

  /** The k-th coming crc32 command gets an answer. */
  predicate Answered(answers: seq<bool>, k: nat)
  {
    k < |answers| ==> answers[k]
  }

  ghost predicate FirstAnswer(answers: seq<bool>, k: nat)
  {
    Answered(answers, k) && forall i: nat :: i < k ==> !Answered(answers, i)
  }

  /** What the k-th coming md.b command is read as. */
  function Reading(dumps: seq<seq<Byte>>, truth: seq<Byte>, k: nat): seq<Byte>
  {
    if k < |dumps| then dumps[k] else truth
  }

  predicate Good(bytes: seq<Byte>, truth: seq<Byte>)
  {
    |bytes| == |truth| && Crc32.Crc(0, bytes) == Crc32.Crc(0, truth)
  }

  /** Reading k is the first with the right length and CRC-32. */
  ghost predicate FirstGood(dumps: seq<seq<Byte>>, truth: seq<Byte>, k: nat)
  {
    Good(Reading(dumps, truth, k), truth) && forall i: nat :: i < k ==> !Good(Reading(dumps, truth, i), truth)
  }

  /** One of maxRetries + 1 readings is good. */
  ghost predicate GoodWithin(dumps: seq<seq<Byte>>, truth: seq<Byte>, maxRetries: nat)
  {
    exists k: nat :: k <= maxRetries && Good(Reading(dumps, truth, k), truth)
  }

  lemma FirstUnique(dumps: seq<seq<Byte>>, truth: seq<Byte>, j: nat, k: nat)
    requires FirstGood(dumps, truth, j) && FirstGood(dumps, truth, k)
    ensures j == k
  {
    hide Good, Reading;
  }

  /** No three crc32 commands in a row stay without an answer. */
  ghost predicate NoThreeSilences(answers: seq<bool>)
  {
    forall k: nat :: k + 2 < |answers| ==> answers[k] || answers[k + 1] || answers[k + 2]
  }

  lemma FewSilencesAhead(answers: seq<bool>, k: nat)
    requires NoThreeSilences(answers)
    ensures NoThreeSilences(Rest(answers, k))
    ensures Answered(answers, 0) || Answered(answers, 1) || Answered(answers, 2)
  {
    if |answers| > 2 { assert answers[0] || answers[0 + 1] || answers[0 + 2]; }
    if k <= |answers| {
      forall i: nat | i + 2 < |answers[k..]| ensures answers[k..][i] || answers[k..][i + 1] || answers[k..][i + 2] {
        assert answers[k + i] || answers[k + i + 1] || answers[k + i + 2];
      }
    }
  }

  /** Readings with the CRC-32 of a range of the device's bytes are those bytes. */
  ghost predicate TrustReadings(dumps: seq<seq<Byte>>, ram: seq<Byte>)
  {
    forall k, lo, hi :: 0 <= k < |dumps| && 0 <= lo <= hi <= |ram| && Good(dumps[k], ram[lo..hi]) ==>
      dumps[k] == ram[lo..hi]
  }

  lemma TrustReading(dumps: seq<seq<Byte>>, ram: seq<Byte>, lo: nat, hi: nat, k: nat)
    requires TrustReadings(dumps, ram) && lo <= hi <= |ram| && Good(Reading(dumps, ram[lo..hi], k), ram[lo..hi])
    ensures Reading(dumps, ram[lo..hi], k) == ram[lo..hi] && TrustReadings(Rest(dumps, k + 1), ram)
  {
    hide Good;
  }

  /** From offset p on, every bad chunk meets a good reading within maxRetries + 1 tries. */
  ghost predicate Readable(g: Grid, was: seq<Byte>, ram: seq<Byte>, dumps: seq<seq<Byte>>, maxRetries: nat, p: nat)
    requires g.Valid() && |was| == |ram| == g.size
    decreases g.size - p
  {
    p < g.size ==>
      if Bad(g, was, ram, p)
      then exists k :: 0 <= k <= maxRetries && FirstGood(dumps, ram[p..g.End(p)], k)
                       && Readable(g, was, ram, Rest(dumps, k + 1), maxRetries, p + 1)
      else Readable(g, was, ram, dumps, maxRetries, p + 1)
  }

  lemma {:induction false} ReadableSkip(g: Grid, was: seq<Byte>, ram: seq<Byte>, dumps: seq<seq<Byte>>,
                                        maxRetries: nat, p: nat, q: nat)
    requires g.Valid() && |was| == |ram| == g.size && p <= q <= g.size
    requires forall off :: p <= off < q ==> !Bad(g, was, ram, off)
    ensures Readable(g, was, ram, dumps, maxRetries, p) == Readable(g, was, ram, dumps, maxRetries, q)
    decreases q - p
  {
    hide Bad, FirstGood, Grid.End, Rest;
    if p < q { ReadableSkip(g, was, ram, dumps, maxRetries, p + 1, q); }
  }

  lemma ReadableAt(g: Grid, was: seq<Byte>, ram: seq<Byte>, dumps: seq<seq<Byte>>, maxRetries: nat, p: nat, k: nat)
    requires g.Valid() && |was| == |ram| == g.size && p < g.size && Bad(g, was, ram, p)
    requires k <= maxRetries && FirstGood(dumps, ram[p..g.End(p)], k)
    requires forall off :: p < off < g.End(p) ==> !Bad(g, was, ram, off)
    ensures Readable(g, was, ram, dumps, maxRetries, p)
         == Readable(g, was, ram, Rest(dumps, k + 1), maxRetries, g.End(p))
  {
    hide Bad, FirstGood, Grid.End, Rest;
    ReadableSkip(g, was, ram, Rest(dumps, k + 1), maxRetries, p + 1, g.End(p));
    forall x: nat | FirstGood(dumps, ram[p..g.End(p)], x) ensures x == k {
      FirstUnique(dumps, ram[p..g.End(p)], x, k);
    }
  }

  lemma NotReadable(g: Grid, was: seq<Byte>, ram: seq<Byte>, dumps: seq<seq<Byte>>, maxRetries: nat, p: nat)
    requires g.Valid() && |was| == |ram| == g.size && p < g.size && Bad(g, was, ram, p)
    requires !GoodWithin(dumps, ram[p..g.End(p)], maxRetries)
    ensures !Readable(g, was, ram, dumps, maxRetries, p)
  {
    hide Bad, Good, Grid.End, Rest;
  }

  lemma GoodReading(bytes: seq<Byte>, truth: seq<Byte>)
    requires Good(bytes, truth)
    ensures |bytes| == |truth| && Crc32.Crc(0, bytes) == Crc32.Crc(0, truth)
  {
  }

  /** With nothing in the way, the first reading is good. */
  lemma {:induction false} TruthReadable(g: Grid, was: seq<Byte>, ram: seq<Byte>, maxRetries: nat, p: nat)
    requires g.Valid() && |was| == |ram| == g.size
    ensures Readable(g, was, ram, [], maxRetries, p)
    decreases g.size - p
  {
    hide Bad, Grid.End, Crc32.Crc;
    if p < g.size {
      TruthReadable(g, was, ram, maxRetries, p + 1);
      assert FirstGood([], ram[p..g.End(p)], 0);
      assert Rest<seq<Byte>>([], 1) == [];
    }
  }

  /** What the comparison needs in order to end well, but for the readings. */
  ghost predicate Calm(answers: seq<bool>, dumps: seq<seq<Byte>>, was: seq<Byte>, ram: seq<Byte>)
    requires |was| == |ram|
  {
    NoThreeSilences(answers) && TrustReadings(dumps, ram) && Trust(was, ram)
  }

  // ---- The file and the device ---------------------------------------------------------------

  class Dump {
    var file: seq<Byte>
    /** The copy in device RAM. */
    const ram: seq<Byte>
    /** Which of the coming crc32 commands get an answer; all, once this is used up. */
    var answers: seq<bool>
    /** What the coming md.b commands are read as; the truth, once this is used up. */
    var dumps: seq<seq<Byte>>
    /** Offsets written to the file. */
    ghost var writes: seq<nat>

    constructor (file: seq<Byte>, ram: seq<Byte>, answers: seq<bool>, dumps: seq<seq<Byte>>)
      ensures this.file == file && this.ram == ram && this.answers == answers && this.dumps == dumps && writes == []
    {
      this.file, this.ram, this.answers, this.dumps, this.writes := file, ram, answers, dumps, [];
    }

    /** device_crc: the first of three tries that gets an answer; None is its exception. */
    method DeviceCrc(off: nat, n: nat) returns (crc: Option<nat>)
      requires off + n <= |ram|
      modifies this`answers
      ensures crc.Some? <==> exists k: nat :: k < 3 && Answered(old(answers), k)
      ensures crc.Some? ==> crc.value == Crc32.Crc(0, ram[off..off + n])
      ensures forall k: nat :: k < 3 && FirstAnswer(old(answers), k) ==> answers == Rest(old(answers), k + 1)
      ensures NoThreeSilences(old(answers)) ==> crc.Some? && NoThreeSilences(answers)
    {
      if NoThreeSilences(answers) {
        forall k: nat ensures NoThreeSilences(Rest(answers, k)) { FewSilencesAhead(answers, k); }
        FewSilencesAhead(answers, 0);
      }
      hide NoThreeSilences, Crc32.Crc;
      for i := 0 to 3
        invariant answers == Rest(old(answers), i) && forall k: nat :: k < i ==> !Answered(old(answers), k)
      {
        var answered := true;
        if answers != [] { answered, answers := answers[0], answers[1..]; }
        assert answered == Answered(old(answers), i);
        if answered {
          var c := Crc32.Compute(0, ram[off..off + n]);
          return Some(c);
        }
      }
      crc := None;
    }

    method MdB(off: nat, n: nat) returns (got: seq<Byte>)
      requires off + n <= |ram|
      modifies this`dumps
      ensures got == Reading(old(dumps), ram[off..off + n], 0) && dumps == Rest(old(dumps), 1)
    {
      if dumps == [] { return ram[off..off + n]; }
      got, dumps := dumps[0], dumps[1..];
    }

    /** The retry loop for one chunk: the first good reading among maxRetries + 1. */
    method Reread(off: nat, n: nat, want: nat, maxRetries: nat) returns (got: Option<seq<Byte>>, ghost tries: nat)
      requires off + n <= |ram| && want == Crc32.Crc(0, ram[off..off + n])
      modifies this`dumps
      ensures got.Some? <==> GoodWithin(old(dumps), ram[off..off + n], maxRetries)
      ensures got.Some? ==>
                && 1 <= tries <= maxRetries + 1 && FirstGood(old(dumps), ram[off..off + n], tries - 1)
                && got.value == Reading(old(dumps), ram[off..off + n], tries - 1) && Good(got.value, ram[off..off + n])
      ensures got.None? ==> tries == maxRetries + 1
      ensures dumps == Rest(old(dumps), tries)
    {
      hide Crc32.Crc;
      ghost var truth := ram[off..off + n];
      tries := 0;
      for i := 0 to maxRetries + 1
        invariant tries == i && dumps == Rest(old(dumps), i)
        invariant forall k: nat :: k < i ==> !Good(Reading(old(dumps), truth, k), truth)
      {
        var bytes := MdB(off, n);
        tries := tries + 1;
        assert bytes == Reading(old(dumps), truth, i);
        var crc := Crc32.Compute(0, bytes);
        if |bytes| == n && crc == want {
          assert FirstGood(old(dumps), truth, i);
          return Some(bytes), tries;
        }
      }
      got := None;
    }

    /** One chunk of a differing block. */
    method RepairChunk(data: seq<Byte>, g: Grid, off: nat, n: nat, maxRetries: nat,
                       ghost was: seq<Byte>, ghost boff: nat, ghost bend: nat)
      returns (ok: bool, data': seq<Byte>, fixed: nat)
      requires g.Valid() && |data| == |ram| == g.size <= |was| && off < g.size && g.End(off) == off + n
      requires g.Starts(off) && g.Lo(off) == boff && g.Hi(off) == bend && Differs(was[..g.size], ram, boff, bend)
      requires forall x :: off < x < off + n ==> !Bad(g, was[..g.size], ram, x)
      requires InStep(file, was, data)
      requires Progress(g, was[..g.size], data, ram, writes) && Upto(g, was[..g.size], data, ram, writes, off)
      modifies this
      ensures |data'| == g.size && InStep(file, was, data') && Progress(g, was[..g.size], data', ram, writes)
      ensures ok ==> Upto(g, was[..g.size], data', ram, writes, off + n)
      ensures fixed + |old(writes)| == |writes|
      ensures Calm(old(answers), old(dumps), was[..g.size], ram) && True(data, ram, off) ==>
                var base := was[..g.size];
                if ok then Calm(answers, dumps, base, ram) && True(data', ram, off + n)
                           && (Readable(g, base, ram, old(dumps), maxRetries, off)
                               == Readable(g, base, ram, dumps, maxRetries, off + n))
                else !Readable(g, base, ram, old(dumps), maxRetries, off)
    {
      hide Trust, True, Progress, Upto, Differs, Bad, Splice, Crc32.Crc, InStep, Grid.Lo, Grid.Hi, Grid.Starts,
           Grid.End, Readable, Rest, Reading, Answered, TrustReadings, NoThreeSilences, FirstGood;
      ghost var base := was[..g.size];
      ghost var calm := Calm(answers, dumps, base, ram) && True(data, ram, off);
      data', fixed, ok := data, 0, false;
      var want := DeviceCrc(off, n);
      if want.None? { return; }
      var have := Crc32.Compute(0, data[off..off + n]);
      AtChunk(g, base, data, ram, writes, off, boff, bend);
      if want.value == have {
        if calm { SkipTrue(g, base, data, ram, writes, off, off + n); }
        Skip(g, base, data, ram, writes, off, off + n);
        ReadableSkip(g, base, ram, dumps, maxRetries, off, off + n);
      } else {
        ghost var script := dumps;
        var got, tries := Reread(off, n, want.value, maxRetries);
        if got.None? {
          NotReadable(g, base, ram, script, maxRetries, off);
          return;
        }
        GoodReading(got.value, ram[off..off + n]);
        ReadableAt(g, base, ram, script, maxRetries, off, tries - 1);
        if calm { TrustReading(script, ram, off, off + n, tries - 1); }
        Rewrite(g, base, data, ram, writes, off, got.value);
        KeepInStep(file, was, data, off, got.value);
        if calm { TrueWrite(data, ram, off, off + n); }
        data' := Splice(data, off, got.value);
        file := Splice(file, off, got.value);
        writes := writes + [off];
        fixed := 1;
      }
      ok := true;
    }

    /** The chunk loop of one differing block. */
    method RepairBlock(data: seq<Byte>, g: Grid, boff: nat, bend: nat, maxRetries: nat, ghost was: seq<Byte>)
      returns (ok: bool, data': seq<Byte>, fixed: nat)
      requires g.Valid() && |data| == |ram| == g.size <= |was| && boff < g.size && boff % g.block == 0
      requires bend == (if boff + g.block <= g.size then boff + g.block else g.size)
      requires InStep(file, was, data) && Differs(was[..g.size], ram, boff, bend)
      requires Progress(g, was[..g.size], data, ram, writes) && Upto(g, was[..g.size], data, ram, writes, boff)
      modifies this
      ensures |data'| == g.size && InStep(file, was, data') && Progress(g, was[..g.size], data', ram, writes)
      ensures ok ==> Upto(g, was[..g.size], data', ram, writes, bend)
      ensures fixed + |old(writes)| == |writes|
      ensures Calm(old(answers), old(dumps), was[..g.size], ram) && True(data, ram, boff) ==>
                var base := was[..g.size];
                if ok then Calm(answers, dumps, base, ram) && True(data', ram, bend)
                           && (Readable(g, base, ram, old(dumps), maxRetries, boff)
                               == Readable(g, base, ram, dumps, maxRetries, bend))
                else !Readable(g, base, ram, old(dumps), maxRetries, boff)
    {
      hide Calm, True, Progress, Upto, Differs, Bad, InStep, Grid.Lo, Grid.Hi, Grid.Starts, Grid.End, OnGrid, Readable;
      data', fixed := data, 0;
      ghost var base := was[..g.size];
      ghost var script := dumps;
      ghost var calm := Calm(answers, dumps, base, ram) && True(data, ram, boff);
      var off := boff;
      GridStart(g, boff);
      while off < bend
        invariant boff <= off <= bend && (off < bend ==> OnGrid(g, boff, off))
        invariant |data'| == g.size && InStep(file, was, data') && Progress(g, base, data', ram, writes)
        invariant Upto(g, base, data', ram, writes, off) && fixed + |old(writes)| == |writes|
        invariant calm ==> Calm(answers, dumps, base, ram) && True(data', ram, off)
        invariant calm ==> (Readable(g, base, ram, script, maxRetries, boff)
                            == Readable(g, base, ram, dumps, maxRetries, off))
        decreases bend - off
      {
        InBlock(g, boff, off);
        var n := if g.chunk < bend - off then g.chunk else bend - off;
        EndIs(g, off, n);
        BetweenStarts(g, base, ram, off, off + n);
        GridNext(g, boff, off);
        var more;
        ok, data', more := RepairChunk(data', g, off, n, maxRetries, was, boff, bend);
        fixed := fixed + more;
        if !ok { return; }
        off := off + n;
      }
      ok := true;
    }
  }

  /** The file's compared part is the buffer `data`, the rest is as it was. */
  ghost predicate InStep(file: seq<Byte>, was: seq<Byte>, data: seq<Byte>)
  {
    |data| <= |file| == |was| && file[..|data|] == data && file[|data|..] == was[|data|..]
  }

  lemma KeepInStep(file: seq<Byte>, was: seq<Byte>, data: seq<Byte>, off: nat, got: seq<Byte>)
    requires off + |got| <= |data| && InStep(file, was, data)
    ensures off + |got| <= |file| && InStep(Splice(file, off, got), was, Splice(data, off, got))
  {
    var f, d := Splice(file, off, got), Splice(data, off, got);
    forall i | 0 <= i < |data| ensures f[i] == d[i] { assert file[..|data|][i] == data[i]; }
    assert f[..|data|] == d;
    forall i | |data| <= i < |file| ensures f[i] == was[i] {
      assert file[|data|..][i - |data|] == was[|data|..][i - |data|];
    }
    assert f[|data|..] == was[|data|..];
  }

  lemma EndIs(g: Grid, off: nat, n: nat)
    requires g.Valid() && off < g.size && n == if g.chunk < g.Hi(off) - off then g.chunk else g.Hi(off) - off
    ensures g.End(off) == off + n && n > 0
  {
  }

  /** The chunk's comparison decides whether it is bad. */
  lemma AtChunk(g: Grid, was: seq<Byte>, now: seq<Byte>, ram: seq<Byte>, writes: seq<nat>, off: nat, boff: nat,
                bend: nat)
    requires g.Valid() && |was| == |now| == |ram| == g.size && off < g.size
    requires Upto(g, was, now, ram, writes, off) && g.Starts(off) && g.Lo(off) == boff && g.Hi(off) == bend
    requires Differs(was, ram, boff, bend)
    ensures Bad(g, was, ram, off) <==> Crc32.Crc(0, ram[off..g.End(off)]) != Crc32.Crc(0, now[off..g.End(off)])
  {
    hide Crc32.Crc, Grid.Lo, Grid.Hi, Grid.Starts, Grid.End;
    SameAhead(was, now, ram, off, off, g.End(off));
  }

  lemma SkipTrue(g: Grid, was: seq<Byte>, now: seq<Byte>, ram: seq<Byte>, writes: seq<nat>, p: nat, q: nat)
    requires g.Valid() && |was| == |now| == |ram| == g.size && p <= q <= g.size && Upto(g, was, now, ram, writes, p)
    requires Trust(was, ram) && True(now, ram, p)
    requires Crc32.Crc(0, ram[p..q]) == Crc32.Crc(0, now[p..q])
    ensures True(now, ram, q)
  {
    hide Crc32.Crc, Trust, True, Bad, Grid.End;
    SameAhead(was, now, ram, p, p, q);
    TrueSkip(was, now, ram, p, q);
  }

  /** verify_and_repair; None is one of its exceptions. However it ends, only bad chunks
      were rewritten, each with bytes of the device's CRC-32. A normal return means the
      whole image has the device's CRC-32, that exactly the bad chunks were rewritten,
      and how many there were. */
  method VerifyAndRepair(d: Dump, g: Grid, maxRetries: nat) returns (fixed: Option<nat>)
    requires g.Valid() && |d.ram| == g.size && d.writes == []
    modifies d
    ensures |d.file| == |old(d.file)|
    ensures |old(d.file)| < g.size ==> fixed == None && d.file == old(d.file)
    ensures |old(d.file)| >= g.size ==>
              && d.file[g.size..] == old(d.file)[g.size..]
              && Progress(g, old(d.file)[..g.size], d.file[..g.size], d.ram, d.writes)
    ensures fixed.Some? ==>
              && |old(d.file)| >= g.size && fixed.value == |d.writes|
              && !Differs(d.file[..g.size], d.ram, 0, g.size)
              && (if Differs(old(d.file)[..g.size], d.ram, 0, g.size)
                  then forall off :: 0 <= off < g.size ==>
                         (off in d.writes <==> Bad(g, old(d.file)[..g.size], d.ram, off))
                  else d.writes == [])
    ensures fixed.Some? && Trust(old(d.file)[..g.size], d.ram) && TrustWrites(g, d.file[..g.size], d.ram, d.writes) ==>
              d.file[..g.size] == d.ram
    ensures |old(d.file)| >= g.size && Calm(old(d.answers), old(d.dumps), old(d.file)[..g.size], d.ram) ==>
              && (fixed.Some? <==> Differs(old(d.file)[..g.size], d.ram, 0, g.size) ==>
                    Readable(g, old(d.file)[..g.size], d.ram, old(d.dumps), maxRetries, 0))
              && (fixed.Some? ==> d.file[..g.size] == d.ram)
    ensures |old(d.file)| >= g.size && Trust(old(d.file)[..g.size], d.ram) ==>
              old(d.answers) == [] && old(d.dumps) == [] ==>
              fixed.Some? && d.file[..g.size] == d.ram
  {
    hide Calm, Readable, Answered, Rest, Trust, TrustWrites, True, Progress, Upto, Bad, Splice, Crc32.Crc;
    hide Grid.Lo, Grid.Hi, Grid.Starts, Grid.End;
    ghost var was := d.file;
    if |d.file| < g.size { return None; }
    var data := d.file[..g.size];
    ghost var base, script := was[..g.size], d.dumps;
    ghost var calm := Calm(d.answers, script, base, d.ram);
    if d.answers == [] && script == [] && Trust(base, d.ram) { TruthCalm(g, base, d.ram, maxRetries); }
    CalmParts(d.answers, script, base, d.ram);
    Start(g, base, d.ram);
    var device := d.DeviceCrc(0, g.size);
    if device.None? { return None; }
    var crc := Crc32.Compute(0, data);
    assert d.ram[0..g.size] == d.ram && data[0..g.size] == data;
    if device.value == crc {
      if Trust(base, d.ram) { TrustWhole(base, d.ram); }
      return Some(0);
    }
    var count, boff := 0, 0;
    NothingTrue(data, d.ram);
    while boff < g.size
      invariant 0 <= boff && (boff < g.size ==> boff % g.block == 0)
      invariant |data| == g.size && InStep(d.file, was, data) && Progress(g, base, data, d.ram, d.writes)
      invariant Upto(g, base, data, d.ram, d.writes, if boff < g.size then boff else g.size)
      invariant count == |d.writes|
      invariant calm ==> Calm(d.answers, d.dumps, base, d.ram)
      invariant calm ==> True(data, d.ram, if boff < g.size then boff else g.size)
      invariant calm ==> (Readable(g, base, d.ram, script, maxRetries, 0)
                          == Readable(g, base, d.ram, d.dumps, maxRetries, if boff < g.size then boff else g.size))
      decreases g.size - boff
    {
      var bend := if boff + g.block < g.size then boff + g.block else g.size;
      NextBlock(boff, g.block);
      CalmParts(d.answers, d.dumps, base, d.ram);
      device := d.DeviceCrc(boff, bend - boff);
      if device.None? { return None; }
      crc := Crc32.Compute(0, data[boff..bend]);
      Ahead(g, base, data, d.ram, d.writes, boff, bend);
      if device.value == crc {
        GoodBlock(g, base, d.ram, boff, bend);
        if calm { SkipTrue(g, base, data, d.ram, d.writes, boff, bend); }
        Skip(g, base, data, d.ram, d.writes, boff, bend);
        ReadableSkip(g, base, d.ram, d.dumps, maxRetries, boff, bend);
      } else {
        var ok, more;
        ok, data, more := d.RepairBlock(data, g, boff, bend, maxRetries, was);
        if !ok { return None; }
        count := count + more;
      }
      boff := boff + g.block;
    }
    Exactly(g, base, data, d.ram, d.writes);
    if calm { AllTrue(data, d.ram); }
    ReadableEnd(g, base, d.ram, d.dumps, maxRetries);
    CalmParts(d.answers, d.dumps, base, d.ram);
    device := d.DeviceCrc(0, g.size);
    if device.None? { return None; }
    crc := Crc32.Compute(0, data);
    assert data[0..g.size] == data && base[0..g.size] == base;
    if device.value != crc { return None; }
    if Trust(base, d.ram) && TrustWrites(g, data, d.ram, d.writes) { AllRight(g, base, data, d.ram, d.writes); }
    fixed := Some(count);
  }

  lemma CalmParts(answers: seq<bool>, dumps: seq<seq<Byte>>, was: seq<Byte>, ram: seq<Byte>)
    requires |was| == |ram|
    ensures Calm(answers, dumps, was, ram) ==> NoThreeSilences(answers) && Trust(was, ram)
    ensures forall more :: Calm(answers, dumps, was, ram) && NoThreeSilences(more) ==> Calm(more, dumps, was, ram)
  {
    hide Trust, TrustReadings, NoThreeSilences;
  }

  lemma TruthCalm(g: Grid, was: seq<Byte>, ram: seq<Byte>, maxRetries: nat)
    requires g.Valid() && |was| == |ram| == g.size && Trust(was, ram)
    ensures Calm([], [], was, ram) && Readable(g, was, ram, [], maxRetries, 0)
  {
    hide Trust, Readable;
    TruthReadable(g, was, ram, maxRetries, 0);
  }

  lemma ReadableEnd(g: Grid, was: seq<Byte>, ram: seq<Byte>, dumps: seq<seq<Byte>>, maxRetries: nat)
    requires g.Valid() && |was| == |ram| == g.size
    ensures Readable(g, was, ram, dumps, maxRetries, g.size)
  {
  }

  lemma TrustWhole(was: seq<Byte>, ram: seq<Byte>)
    requires |was| == |ram| && Trust(was, ram) && Crc32.Crc(0, ram) == Crc32.Crc(0, was)
    ensures was == ram
  {
    hide Crc32.Crc;
    assert was[0..|was|] == was && ram[0..|ram|] == ram;
    assert !Differs(was, ram, 0, |was|);
  }

  lemma NothingTrue(now: seq<Byte>, ram: seq<Byte>)
    requires |now| == |ram|
    ensures True(now, ram, 0)
  {
  }

  lemma AllTrue(now: seq<Byte>, ram: seq<Byte>)
    requires True(now, ram, |ram|)
    ensures now == ram
  {
  }

  lemma Ahead(g: Grid, was: seq<Byte>, now: seq<Byte>, ram: seq<Byte>, writes: seq<nat>, boff: nat, bend: nat)
    requires g.Valid() && |was| == |now| == |ram| == g.size && boff <= bend <= g.size
    requires Upto(g, was, now, ram, writes, boff)
    ensures Differs(was, ram, boff, bend) <==> Crc32.Crc(0, ram[boff..bend]) != Crc32.Crc(0, now[boff..bend])
  {
    hide Crc32.Crc;
    SameAhead(was, now, ram, boff, boff, bend);
  }

  lemma Exactly(g: Grid, was: seq<Byte>, now: seq<Byte>, ram: seq<Byte>, writes: seq<nat>)
    requires g.Valid() && |was| == |now| == |ram| == g.size
    requires Progress(g, was, now, ram, writes) && Upto(g, was, now, ram, writes, g.size)
    ensures forall off :: 0 <= off < g.size ==> (off in writes <==> Bad(g, was, ram, off))
  {
    hide Bad, Differs, Covered, Grid.End;
  }

  // ---- What the device's bytes have to do with it -------------------------------------------

  /** Equal CRC-32s of a rewritten chunk mean equal bytes in it. */
  ghost predicate TrustWrites(g: Grid, now: seq<Byte>, ram: seq<Byte>, writes: seq<nat>)
    requires g.Valid() && |now| == |ram| == g.size
  {
    forall k :: 0 <= k < |writes| && writes[k] < g.size && !Differs(now, ram, writes[k], g.End(writes[k])) ==>
      now[writes[k]..g.End(writes[k])] == ram[writes[k]..g.End(writes[k])]
  }

  /** The start of the chunk around i. */
  function ChunkOf(g: Grid, i: nat): nat
    requires g.Valid()
  {
    g.Lo(i) + (i - g.Lo(i)) / g.chunk * g.chunk
  }

  lemma ChunkAround(g: Grid, i: nat)
    requires g.Valid() && i < g.size
    ensures var off := ChunkOf(g, i); off <= i && off < g.size && g.Starts(off) && g.Lo(off) == g.Lo(i)
    ensures var off := ChunkOf(g, i); i < g.End(off)
  {
    var lo := g.Lo(i);
    BlockStart(i, g.block);
    var q := (i - lo) / g.chunk;
    assert i - lo == q * g.chunk + (i - lo) % g.chunk;
    var off := ChunkOf(g, i);
    OffsetIn(lo, g.block, off);
    DivModBy(off - lo, g.chunk, q, 0);
  }

  lemma BlockStart(i: nat, block: nat)
    requires block > 0
    ensures (i - i % block) % block == 0 && i - i % block <= i < i - i % block + block
  {
    DivModBy(i - i % block, block, i / block, 0);
  }

  /** Chunks do not overlap. */
  lemma OneChunk(g: Grid, x: nat, y: nat, i: nat)
    requires g.Valid() && x < g.size && y < g.size && g.Starts(x) && g.Starts(y)
    requires x <= i < g.End(x) && y <= i < g.End(y)
    ensures x == y
  {
    AloneInChunk(g, x);
    AloneInChunk(g, y);
    hide Grid.Starts, Grid.End;
  }

  lemma AloneInChunk(g: Grid, x: nat)
    requires g.Valid() && x < g.size && g.Starts(x)
    ensures forall y :: x < y < g.End(x) ==> !g.Starts(y)
  {
    BlockStart(x, g.block);
    OffsetIn(g.Lo(x), g.block, x);
    InBlock(g, g.Lo(x), x);
  }

  lemma BadStarts(g: Grid, was: seq<Byte>, ram: seq<Byte>, off: nat)
    requires g.Valid() && |was| == |ram| == g.size && Bad(g, was, ram, off)
    ensures g.Starts(off)
  {
  }

  lemma NotCovered(g: Grid, was: seq<Byte>, now: seq<Byte>, ram: seq<Byte>, writes: seq<nat>, i: nat)
    requires g.Valid() && |was| == |now| == |ram| == g.size && Progress(g, was, now, ram, writes) && i < g.size
    requires ChunkOf(g, i) !in writes
    ensures now[i] == was[i]
  {
    ChunkAround(g, i);
    hide Bad, Differs, Grid.End, Grid.Starts, Grid.Lo, Grid.Hi, ChunkOf;
    if now[i] != was[i] {
      var k :| 0 <= k < |writes| && writes[k] <= i && writes[k] < g.size && i < g.End(writes[k]);
      BadStarts(g, was, ram, writes[k]);
      OneChunk(g, writes[k], ChunkOf(g, i), i);
    }
  }

  /** The rewritten chunks have the device's bytes because their CRC-32 says so; all others
      because the comparison said so. The CRC-32 of the whole is not needed. */
  lemma ByteRight(g: Grid, was: seq<Byte>, now: seq<Byte>, ram: seq<Byte>, writes: seq<nat>, i: nat)
    requires g.Valid() && |was| == |now| == |ram| == g.size && Progress(g, was, now, ram, writes) && i < g.size
    requires forall off :: 0 <= off < g.size ==> (off in writes <==> Bad(g, was, ram, off))
    requires Trust(was, ram) && TrustWrites(g, now, ram, writes)
    ensures now[i] == ram[i]
  {
    ChunkAround(g, i);
    var off := ChunkOf(g, i);
    hide Differs, Covered, Grid.End, Grid.Starts, Grid.Lo, Grid.Hi, ChunkOf;
    if off in writes {
      var k :| 0 <= k < |writes| && writes[k] == off;
      assert !Differs(now, ram, off, g.End(off));
      SameAt(now, ram, off, g.End(off), i);
    } else {
      NotCovered(g, was, now, ram, writes, i);
      if !Differs(was, ram, off, g.End(off)) {
        SameAt(was, ram, off, g.End(off), i);
      } else {
        assert g.Lo(off) == g.Lo(i);
        SameAt(was, ram, g.Lo(off), g.Hi(off), i);
      }
    }
  }

  lemma SameAt(a: seq<Byte>, b: seq<Byte>, lo: nat, hi: nat, i: nat)
    requires lo <= i < hi <= |a| && |a| == |b| && a[lo..hi] == b[lo..hi]
    ensures a[i] == b[i]
  {
    assert a[lo..hi][i - lo] == b[lo..hi][i - lo];
  }

  lemma AllRight(g: Grid, was: seq<Byte>, now: seq<Byte>, ram: seq<Byte>, writes: seq<nat>)
    requires g.Valid() && |was| == |now| == |ram| == g.size && Progress(g, was, now, ram, writes)
    requires forall off :: 0 <= off < g.size ==> (off in writes <==> Bad(g, was, ram, off))
    requires Trust(was, ram) && TrustWrites(g, now, ram, writes)
    ensures now == ram
  {
    hide Progress, Bad, Trust, TrustWrites;
    forall i | 0 <= i < g.size ensures now[i] == ram[i] { ByteRight(g, was, now, ram, writes, i); }
  }
}
