/** Cutting `size` bytes into pieces of `step` bytes, the last one possibly shorter. */
module Tiling {
  import opened Bits

  function Pieces(size: nat, step: nat): nat
    requires step > 0
  {
    (size + step - 1) / step
  }

  function Upto(size: nat, step: nat, i: nat): (k: nat)
    ensures k <= size
  {
    if i * step <= size then i * step else size
  }

  lemma UptoGrows(size: nat, step: nat, i: nat)
    ensures Upto(size, step, i) <= Upto(size, step, i + 1)
    ensures Upto(size, step, i) == i * step ==> Upto(size, step, i + 1) <= i * step + step
  {
    assert (i + 1) * step == i * step + step;
  }

  /** Before the last piece the pieces are full and something remains; after it, nothing. */
  lemma PieceBounds(size: nat, step: nat, i: nat)
    requires step > 0
    ensures i < Pieces(size, step) <==> i * step < size
    ensures i < Pieces(size, step) ==> Upto(size, step, i) == i * step < Upto(size, step, i + 1) <= i * step + step
    ensures i >= Pieces(size, step) ==> Upto(size, step, i) == size
  {
    var n := Pieces(size, step);
    assert n * step >= size > n * step - step || (size == 0 && n == 0);
    assert (i + 1) * step == i * step + step;
    if i < n { MulLe(i + 1, n, step); } else { MulLe(n, i, step); }
  }

  lemma UptoMono(size: nat, step: nat, i: nat, j: nat)
    requires i <= j
    ensures Upto(size, step, i) <= Upto(size, step, j)
  {
    MulLe(i, j, step);
  }
}
