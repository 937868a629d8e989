/** extract_ubifs (src/defib/ubi.py): the logical blocks of one volume out of a raw UBI
    image, whatever physical blocks they sit in. */
module Ubi {
  import opened BigEndian
  import opened Bits
  import opened Nor
  import opened Options

  const EC_MAGIC: seq<Byte> := [0x55, 0x42, 0x49, 0x23]
  const VID_MAGIC: seq<Byte> := [0x55, 0x42, 0x49, 0x21]
  const UBIFS_MAGIC: seq<Byte> := [0x31, 0x18, 0x10, 0x06]
  const HEADER := 64

  datatype Leb = Leb(lnum: nat, data: seq<Byte>)

  /** Raised: a block size of zero, or a block whose header the image cuts off. */
  datatype Extracted = Volume(bytes: seq<Byte>) | NotUbi | NoLebs | NotUbifs | Raised

  /** The block starting at off, of `peb` bytes: what it contributes to volume vol. Its
      volume header is looked for anywhere in the image. */
  function LebAt(image: seq<Byte>, peb: nat, vol: nat, off: nat): Option<Leb>
    requires off + peb <= |image| && off + HEADER <= |image|
  {
    if image[off..off + 4] != EC_MAGIC then None
    else
      var vid := off + FromBe32(image[off + 16..off + 20]);
      var dataOff := FromBe32(image[off + 20..off + 24]);
      if vid + HEADER > |image| || image[vid..vid + 4] != VID_MAGIC then None
      else if FromBe32(image[vid + 8..vid + 12]) != vol then None
      else Some(Leb(FromBe32(image[vid + 12..vid + 16]),
                    if dataOff <= peb then image[off + dataOff..off + peb] else []))
  }

  function Count(image: seq<Byte>, peb: nat): nat
    requires peb > 0
  {
    |image| / peb
  }

  lemma InImage(image: seq<Byte>, peb: nat, i: nat)
    requires peb > 0 && i < Count(image, peb)
    ensures i * peb + peb <= |image|
  {
    var n := |image| / peb;
    assert n * peb <= |image|;
    assert i * peb + peb == (i + 1) * peb;
    MulLe(i + 1, n, peb);
  }

  function Entry(image: seq<Byte>, peb: nat, vol: nat, i: nat): Option<Leb>
    requires peb > 0 && i < Count(image, peb)
  {
    InImage(image, peb, i);
    if i * peb + HEADER > |image| then None else LebAt(image, peb, vol, i * peb)
  }

  /** Block i starts like a UBI block too close to the end for its header. */
  predicate CutOff(image: seq<Byte>, peb: nat, i: nat)
    requires peb > 0 && i < Count(image, peb)
  {
    InImage(image, peb, i);
    i * peb + HEADER > |image| && IsUbi(image[i * peb..])
  }

  /** The mapping after the first n blocks; a later block wins. */
  function Mapped(image: seq<Byte>, peb: nat, vol: nat, n: nat): map<nat, seq<Byte>>
    requires peb > 0 && n <= Count(image, peb)
  {
    if n == 0 then map[]
    else
      var m := Mapped(image, peb, vol, n - 1);
      match Entry(image, peb, vol, n - 1)
      case None => m
      case Some(leb) => m[leb.lnum := leb.data]
  }

  function LebOr(m: map<nat, seq<Byte>>, size: nat, i: nat): seq<Byte>
  {
    if i in m then m[i] else Fill(size, 255)
  }

  /** The first n logical blocks, holes as 0xFF. */
  function Assembled(m: map<nat, seq<Byte>>, size: nat, n: nat): seq<Byte>
  {
    if n == 0 then [] else Assembled(m, size, n - 1) + LebOr(m, size, n - 1)
  }

  /** Without trailing erased blocks, but at least one block. */
  function Trimmed(s: seq<Byte>, size: nat): seq<Byte>
    decreases |s|
  {
    if 0 < size < |s| && AllFf(s[|s| - size..]) then Trimmed(s[..|s| - size], size) else s
  }

  // ---- The loops --------------------------------------------------------------------------

  /** The logical number in the first of n blocks that contributes one. */
  function FirstLnum(image: seq<Byte>, peb: nat, vol: nat, n: nat): Option<nat>
    requires peb > 0 && n <= Count(image, peb)
  {
    if n == 0 then None
    else
      match FirstLnum(image, peb, vol, n - 1)
      case Some(l) => Some(l)
      case None =>
        match Entry(image, peb, vol, n - 1)
        case None => None
        case Some(leb) => Some(leb.lnum)
  }

  lemma {:induction false} FirstMapped(image: seq<Byte>, peb: nat, vol: nat, n: nat)
    requires peb > 0 && n <= Count(image, peb)
    ensures var l, m := FirstLnum(image, peb, vol, n), Mapped(image, peb, vol, n);
            if l.Some? then l.value in m else m == map[]
    decreases n
  {
    hide Entry;
    if n > 0 { FirstMapped(image, peb, vol, n - 1); }
  }

  method CollectLebs(image: seq<Byte>, peb: nat, vol: nat)
    returns (raised: bool, lebs: map<nat, seq<Byte>>, first: Option<nat>)
    requires peb > 0
    ensures raised <==> exists i :: 0 <= i < Count(image, peb) && CutOff(image, peb, i)
    ensures !raised ==> lebs == Mapped(image, peb, vol, Count(image, peb))
    ensures !raised ==> first == FirstLnum(image, peb, vol, Count(image, peb))
  {
    hide LebAt;
    raised, lebs, first := false, map[], None;
    for i := 0 to Count(image, peb)
      invariant forall k :: 0 <= k < i ==> !CutOff(image, peb, k)
      invariant lebs == Mapped(image, peb, vol, i) && first == FirstLnum(image, peb, vol, i)
    {
      InImage(image, peb, i);
      var off := i * peb;
      if IsUbi(image[off..]) {
        if off + HEADER > |image| { assert CutOff(image, peb, i); return true, lebs, first; }
        var leb := LebAt(image, peb, vol, off);
        if leb.Some? {
          if first.None? { first := Some(leb.value.lnum); }
          lebs := lebs[leb.value.lnum := leb.value.data];
        }
      } else {
        NotUbiBlock(image, peb, vol, i);
      }
    }
  }

  lemma NotUbiBlock(image: seq<Byte>, peb: nat, vol: nat, i: nat)
    requires peb > 0 && i < Count(image, peb) && i * peb <= |image| && !IsUbi(image[i * peb..])
    ensures Entry(image, peb, vol, i) == None && !CutOff(image, peb, i)
  {
    InImage(image, peb, i);
    var off := i * peb;
    if off + 4 <= |image| { assert image[off..][..4] == image[off..off + 4]; }
  }

  /** With room for a header in every block nothing is cut off. */
  lemma NoneCutOff(image: seq<Byte>, peb: nat)
    requires peb >= HEADER
    ensures forall i :: 0 <= i < Count(image, peb) ==> !CutOff(image, peb, i)
  {
    forall i | 0 <= i < Count(image, peb) ensures !CutOff(image, peb, i) { InImage(image, peb, i); }
  }

  ghost function Max(keys: set<nat>): (k: nat)
    requires keys != {}
    ensures k in keys && forall x :: x in keys ==> x <= k
    decreases |keys|
  {
    var x :| x in keys;
    var rest := keys - {x};
    assert keys == rest + {x};
    if rest == {} then x else var k := Max(rest); if x > k then x else k
  }

  method MaxKey(keys: set<nat>) returns (k: nat)
    requires keys != {}
    ensures k == Max(keys)
  {
    k :| k in keys;
    var left := keys;
    while left != {}
      invariant k in keys && left <= keys && forall x :: x in keys ==> x in left || x <= k
      decreases |left|
    {
      var x :| x in left;
      if x > k { k := x; }
      left := left - {x};
    }
  }

  method Assemble(lebs: map<nat, seq<Byte>>, size: nat, top: nat) returns (result: seq<Byte>)
    ensures result == Assembled(lebs, size, top + 1)
  {
    result := [];
    for i := 0 to top + 1
      invariant result == Assembled(lebs, size, i)
    {
      if i in lebs { result := result + lebs[i]; } else { result := result + Fill(size, 255); }
    }
  }

  method Trim(bytes: seq<Byte>, size: nat) returns (result: seq<Byte>)
    ensures result == Trimmed(bytes, size)
  {
    result := bytes;
    while |result| > size && size > 0 && AllFf(result[|result| - size..])
      invariant Trimmed(result, size) == Trimmed(bytes, size)
      decreases |result|
    {
      result := result[..|result| - size];
    }
  }

  predicate IsUbi(s: seq<Byte>)
  {
    |s| >= 4 && s[..4] == EC_MAGIC
  }

  predicate IsUbifs(s: seq<Byte>)
  {
    |s| >= 4 && s[..4] == UBIFS_MAGIC
  }

  function Checked(out: seq<Byte>): Extracted
  {
    if IsUbifs(out) then Volume(out) else NotUbifs
  }

  /** The outcome: the length of the block found first counts as the block length. */
  ghost function Extraction(image: seq<Byte>, peb: nat, vol: nat): Extracted
  {
    if !IsUbi(image) then NotUbi
    else if peb == 0 || exists i :: 0 <= i < Count(image, peb) && CutOff(image, peb, i) then Raised
    else
      var n := Count(image, peb);
      var m := Mapped(image, peb, vol, n);
      if m == map[] then NoLebs
      else
        FirstMapped(image, peb, vol, n);
        var size := |m[FirstLnum(image, peb, vol, n).value]|;
        Checked(Trimmed(Assembled(m, size, Max(m.Keys) + 1), size))
  }

  /** extract_ubifs. */
  method ExtractUbifs(image: seq<Byte>, peb: nat, vol: nat) returns (r: Extracted)
    ensures r == Extraction(image, peb, vol)
  {
    hide Mapped, FirstLnum, Trimmed, Assembled, IsUbi, IsUbifs, CutOff, Count;
    if !IsUbi(image) { return NotUbi; }
    if peb == 0 { return Raised; }
    var raised, lebs, first := CollectLebs(image, peb, vol);
    if raised { return Raised; }
    FirstMapped(image, peb, vol, Count(image, peb));
    if lebs == map[] { return NoLebs; }
    var top := MaxKey(lebs.Keys);
    var size := |lebs[first.value]|;
    var bytes := Assemble(lebs, size, top);
    var out := Trim(bytes, size);
    r := if IsUbifs(out) then Volume(out) else NotUbifs;
  }

  // ---- What a well-formed image gives ---------------------------------------------------------

  function PebAt(image: seq<Byte>, peb: nat, i: nat): (p: seq<Byte>)
    requires peb > 0 && i < Count(image, peb)
    ensures |p| == peb
  {
    InImage(image, peb, i);
    image[i * peb..i * peb + peb]
  }

  /** A block's volume header, if it is a UBI block, lies inside the block. */
  predicate Contained(p: seq<Byte>)
    requires |p| >= HEADER
  {
    p[..4] == EC_MAGIC ==> FromBe32(p[16..20]) + HEADER <= |p|
  }

  lemma Within(image: seq<Byte>, off: nat, n: nat, a: nat, b: nat)
    requires off + n <= |image| && a <= b <= n
    ensures image[off..off + n][a..b] == image[off + a..off + b]
  {
    var x, y := image[off..off + n][a..b], image[off + a..off + b];
    assert |x| == |y| && forall i :: 0 <= i < |x| ==> x[i] == y[i];
  }

  /** What such a block contributes depends on the block alone. */
  lemma Local(image: seq<Byte>, peb: nat, vol: nat, off: nat)
    requires peb >= HEADER && off + peb <= |image| && Contained(image[off..off + peb])
    ensures LebAt(image, peb, vol, off) == LebAt(image[off..off + peb], peb, vol, 0)
  {
    hide FromBe32;
    var p := image[off..off + peb];
    Within(image, off, peb, 0, 4);
    Within(image, off, peb, 16, 20);
    Within(image, off, peb, 20, 24);
    assert p[0..4] == p[..4];
    if p[..4] == EC_MAGIC {
      var v := FromBe32(p[16..20]);
      Within(image, off, peb, v, v + 4);
      Within(image, off, peb, v + 8, v + 12);
      Within(image, off, peb, v + 12, v + 16);
      var d := FromBe32(p[20..24]);
      if d <= peb { Within(image, off, peb, d, peb); }
    }
  }

  /** Every block is self-contained, no logical block appears twice, and all logical
      blocks are `size` bytes long. */
  ghost predicate WellFormed(image: seq<Byte>, peb: nat, vol: nat, size: nat)
    requires peb >= HEADER
  {
    && IsUbi(image)
    && (forall i :: 0 <= i < Count(image, peb) ==> Contained(PebAt(image, peb, i)))
    && Distinct(image, peb, vol)
    && (forall i :: 0 <= i < Count(image, peb) && Entry(image, peb, vol, i).Some? ==>
          |Entry(image, peb, vol, i).value.data| == size)
  }

  ghost predicate Distinct(image: seq<Byte>, peb: nat, vol: nat)
    requires peb >= HEADER
  {
    forall i, j :: 0 <= i < j < Count(image, peb)
                   && Entry(image, peb, vol, i).Some? && Entry(image, peb, vol, j).Some?
                   ==> Entry(image, peb, vol, i).value.lnum != Entry(image, peb, vol, j).value.lnum
  }

  /** leb is in one of the first n blocks. */
  ghost predicate Occurs(image: seq<Byte>, peb: nat, vol: nat, n: nat, leb: Leb)
    requires peb >= HEADER && n <= Count(image, peb)
  {
    exists i :: 0 <= i < n && Entry(image, peb, vol, i) == Some(leb)
  }

  /** The mapping is exactly the logical blocks that occur. */
  lemma {:induction false} MappedIs(image: seq<Byte>, peb: nat, vol: nat, n: nat, leb: Leb)
    requires peb >= HEADER && n <= Count(image, peb) && Distinct(image, peb, vol)
    ensures var m := Mapped(image, peb, vol, n);
            leb.lnum in m && m[leb.lnum] == leb.data <==> Occurs(image, peb, vol, n, leb)
    decreases n
  {
    hide Entry;
    if n > 0 {
      MappedIs(image, peb, vol, n - 1, leb);
      OccursStep(image, peb, vol, n, leb);
      var e := Entry(image, peb, vol, n - 1);
      if e.Some? && e.value.lnum == leb.lnum { NotBefore(image, peb, vol, n, leb); }
    }
  }

  lemma OccursStep(image: seq<Byte>, peb: nat, vol: nat, n: nat, leb: Leb)
    requires peb >= HEADER && 0 < n <= Count(image, peb)
    ensures Occurs(image, peb, vol, n, leb)
       <==> Occurs(image, peb, vol, n - 1, leb) || Entry(image, peb, vol, n - 1) == Some(leb)
  {
    hide Entry;
  }

  lemma NotBefore(image: seq<Byte>, peb: nat, vol: nat, n: nat, leb: Leb)
    requires peb >= HEADER && 0 < n <= Count(image, peb) && Distinct(image, peb, vol)
    requires var e := Entry(image, peb, vol, n - 1); e.Some? && e.value.lnum == leb.lnum
    ensures !Occurs(image, peb, vol, n - 1, leb)
  {
    hide Entry;
  }

  lemma {:induction false} MappedOccurs(image: seq<Byte>, peb: nat, vol: nat, n: nat, l: nat)
    requires peb >= HEADER && n <= Count(image, peb) && l in Mapped(image, peb, vol, n)
    ensures exists i :: 0 <= i < n && Entry(image, peb, vol, i) == Some(Leb(l, Mapped(image, peb, vol, n)[l]))
    decreases n
  {
    hide Entry;
    var e := Entry(image, peb, vol, n - 1);
    if e.Some? && e.value.lnum == l {
      assert e == Some(Leb(l, Mapped(image, peb, vol, n)[l]));
    } else {
      MappedOccurs(image, peb, vol, n - 1, l);
    }
  }

  // ---- Assembly and trimming --------------------------------------------------------------------

  ghost predicate Uniform(m: map<nat, seq<Byte>>, size: nat)
  {
    forall l :: l in m ==> |m[l]| == size
  }

  /** How many of the first n logical blocks are left after trimming. */
  function Kept(m: map<nat, seq<Byte>>, size: nat, n: nat): (t: nat)
    ensures t <= n && (n > 0 ==> t > 0)
    ensures forall i :: t <= i < n ==> AllFf(LebOr(m, size, i))
    ensures t > 1 ==> !AllFf(LebOr(m, size, t - 1))
  {
    if n <= 1 || !AllFf(LebOr(m, size, n - 1)) then n else Kept(m, size, n - 1)
  }

  lemma {:induction false} AssembledLength(m: map<nat, seq<Byte>>, size: nat, n: nat)
    requires Uniform(m, size)
    ensures |Assembled(m, size, n)| == n * size
    decreases n
  {
    if n > 0 {
      AssembledLength(m, size, n - 1);
      assert n * size == (n - 1) * size + size;
    }
  }

  /** Trimming whole blocks off the end keeps exactly the first Kept blocks. */
  lemma {:induction false} TrimmedIs(m: map<nat, seq<Byte>>, size: nat, n: nat)
    requires Uniform(m, size) && size > 0
    ensures Trimmed(Assembled(m, size, n), size) == Assembled(m, size, Kept(m, size, n))
    decreases n
  {
    hide Assembled, LebOr, AllFf;
    AssembledLength(m, size, n);
    if n > 0 {
      LastBlock(m, size, n);
      AtLeastTwo(n, size);
      if n > 1 && AllFf(LebOr(m, size, n - 1)) { TrimmedIs(m, size, n - 1); }
    }
  }

  lemma LastBlock(m: map<nat, seq<Byte>>, size: nat, n: nat)
    requires Uniform(m, size) && n > 0
    ensures var s := Assembled(m, size, n);
            |s| >= size && s[|s| - size..] == LebOr(m, size, n - 1) && s[..|s| - size] == Assembled(m, size, n - 1)
  {
  }

  lemma AtLeastTwo(n: nat, size: nat)
    requires n > 0 && size > 0
    ensures n * size > size <==> n > 1
  {
    if n > 1 { MulLe(2, n, size); }
  }

  /** Logical block i of an assembly. */
  lemma {:induction false} AssembledAt(m: map<nat, seq<Byte>>, size: nat, n: nat, i: nat)
    requires Uniform(m, size) && i < n
    ensures i * size + size <= |Assembled(m, size, n)|
    ensures Assembled(m, size, n)[i * size..i * size + size] == LebOr(m, size, i)
    decreases n
  {
    AssembledLength(m, size, n);
    AssembledLength(m, size, n - 1);
    assert (n - 1) * size + size == n * size;
    var a := Assembled(m, size, n - 1);
    if i == n - 1 {
      assert Assembled(m, size, n)[|a|..|a| + size] == LebOr(m, size, i);
    } else {
      AssembledAt(m, size, n - 1, i);
      Prefix(a, LebOr(m, size, n - 1), i * size, size);
    }
  }

  lemma Prefix(a: seq<Byte>, b: seq<Byte>, lo: nat, n: nat)
    requires lo + n <= |a|
    ensures (a + b)[lo..lo + n] == a[lo..lo + n]
  {
  }

  // ---- The result ---------------------------------------------------------------------------------

  /** What extraction gives for a volume: its blocks in logical order up to the last one
      that is not erased. */
  ghost function Logical(m: map<nat, seq<Byte>>, size: nat): Extracted
  {
    if m == map[] then NoLebs else Checked(Assembled(m, size, Kept(m, size, Max(m.Keys) + 1)))
  }

  ghost predicate SameBlocks(a: seq<Byte>, b: seq<Byte>, peb: nat, vol: nat)
    requires peb >= HEADER
  {
    forall leb :: Occurs(a, peb, vol, Count(a, peb), leb) <==> Occurs(b, peb, vol, Count(b, peb), leb)
  }

  /** The mapping depends only on which logical blocks occur. */
  lemma SameMapping(a: seq<Byte>, b: seq<Byte>, peb: nat, vol: nat)
    requires peb >= HEADER && Distinct(a, peb, vol) && Distinct(b, peb, vol) && SameBlocks(a, b, peb, vol)
    ensures Mapped(a, peb, vol, Count(a, peb)) == Mapped(b, peb, vol, Count(b, peb))
  {
    hide Mapped, Entry, Distinct;
    var m, k := Mapped(a, peb, vol, Count(a, peb)), Mapped(b, peb, vol, Count(b, peb));
    forall l | l in m ensures l in k && k[l] == m[l] {
      MappedIs(a, peb, vol, Count(a, peb), Leb(l, m[l]));
      MappedIs(b, peb, vol, Count(b, peb), Leb(l, m[l]));
    }
    forall l | l in k ensures l in m && m[l] == k[l] {
      MappedIs(a, peb, vol, Count(a, peb), Leb(l, k[l]));
      MappedIs(b, peb, vol, Count(b, peb), Leb(l, k[l]));
    }
    assert m.Keys == k.Keys;
  }

  lemma UniformMapping(image: seq<Byte>, peb: nat, vol: nat, size: nat)
    requires peb >= HEADER && WellFormed(image, peb, vol, size)
    ensures Uniform(Mapped(image, peb, vol, Count(image, peb)), size)
  {
    hide Entry, Mapped, Distinct, Contained;
    var m := Mapped(image, peb, vol, Count(image, peb));
    forall l | l in m ensures |m[l]| == size { MappedOccurs(image, peb, vol, Count(image, peb), l); }
  }

  /** Extraction of a well-formed image gives the logical volume. */
  lemma WellFormedVolume(image: seq<Byte>, peb: nat, vol: nat, size: nat)
    requires peb >= HEADER && WellFormed(image, peb, vol, size) && size > 0
    ensures Extraction(image, peb, vol) == Logical(Mapped(image, peb, vol, Count(image, peb)), size)
  {
    assert IsUbi(image);
    UniformMapping(image, peb, vol, size);
    hide WellFormed, Mapped, FirstLnum, Trimmed, Assembled, Kept, IsUbi, Checked, Max, CutOff, Count;
    NoneCutOff(image, peb);
    var m := Mapped(image, peb, vol, Count(image, peb));
    FirstMapped(image, peb, vol, Count(image, peb));
    if m != map[] { TrimmedIs(m, size, Max(m.Keys) + 1); }
  }

  /** Physical order does not matter, nor do blocks of other volumes, unmapped blocks or
      foreign blocks in between: two images with the same logical blocks extract alike. */
  lemma OrderIgnored(a: seq<Byte>, b: seq<Byte>, peb: nat, vol: nat, size: nat)
    requires peb >= HEADER && size > 0 && WellFormed(a, peb, vol, size) && WellFormed(b, peb, vol, size)
    requires SameBlocks(a, b, peb, vol)
    ensures Extraction(a, peb, vol) == Extraction(b, peb, vol)
  {
    SameMapping(a, b, peb, vol);
    hide WellFormed, Mapped, Logical, SameBlocks, Extraction;
    WellFormedVolume(a, peb, vol, size);
    WellFormedVolume(b, peb, vol, size);
  }

  /** b's blocks are a's in another order; inv undoes perm. */
  ghost predicate Permuted(a: seq<Byte>, b: seq<Byte>, peb: nat, perm: seq<nat>, inv: seq<nat>)
    requires peb > 0
  {
    var n := Count(a, peb);
    && Count(b, peb) == n && |perm| == n && |inv| == n
    && (forall i :: 0 <= i < n ==> perm[i] < n && inv[perm[i]] == i && PebAt(b, peb, i) == PebAt(a, peb, perm[i]))
    && (forall j :: 0 <= j < n ==> inv[j] < n && perm[inv[j]] == j)
  }

  /** A permuted image with a UBI block first is well-formed again and has the same
      logical blocks. */
  lemma PermutedSame(a: seq<Byte>, b: seq<Byte>, peb: nat, vol: nat, size: nat, perm: seq<nat>, inv: seq<nat>)
    requires peb >= HEADER && WellFormed(a, peb, vol, size) && Permuted(a, b, peb, perm, inv) && IsUbi(b)
    ensures WellFormed(b, peb, vol, size) && SameBlocks(a, b, peb, vol)
  {
    hide Entry, Contained;
    var n := Count(a, peb);
    forall i | 0 <= i < n ensures Contained(PebAt(b, peb, i)) && Entry(b, peb, vol, i) == Entry(a, peb, vol, perm[i]) {
      SameEntry(a, b, peb, vol, perm[i], i);
    }
    forall leb ensures Occurs(a, peb, vol, n, leb) <==> Occurs(b, peb, vol, n, leb) {
      if Occurs(a, peb, vol, n, leb) {
        var j :| 0 <= j < n && Entry(a, peb, vol, j) == Some(leb);
        assert Entry(b, peb, vol, inv[j]) == Some(leb);
      }
    }
  }

  /** In particular any permutation of the blocks that keeps a UBI block first. */
  lemma PermutedExtracts(a: seq<Byte>, b: seq<Byte>, peb: nat, vol: nat, size: nat, perm: seq<nat>, inv: seq<nat>)
    requires peb >= HEADER && size > 0 && WellFormed(a, peb, vol, size)
    requires Permuted(a, b, peb, perm, inv) && IsUbi(b)
    ensures Extraction(a, peb, vol) == Extraction(b, peb, vol)
  {
    hide WellFormed, SameBlocks, Extraction, Permuted;
    PermutedSame(a, b, peb, vol, size, perm, inv);
    OrderIgnored(a, b, peb, vol, size);
  }

  lemma SameEntry(a: seq<Byte>, b: seq<Byte>, peb: nat, vol: nat, j: nat, i: nat)
    requires peb >= HEADER && j < Count(a, peb) && i < Count(b, peb) && PebAt(b, peb, i) == PebAt(a, peb, j)
    requires Contained(PebAt(a, peb, j))
    ensures Contained(PebAt(b, peb, i)) && Entry(b, peb, vol, i) == Entry(a, peb, vol, j)
  {
    hide LebAt, Contained;
    InImage(a, peb, j);
    InImage(b, peb, i);
    Local(a, peb, vol, j * peb);
    Local(b, peb, vol, i * peb);
  }
}
