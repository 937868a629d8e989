/** Bytes, powers of two and bitwise arithmetic on unbounded naturals.
    Every wire format and checksum of the agent and the host is built on these. */
module Bits {

  type Byte = x: int | 0 <= x < 256

  function Pow2(k: nat): (p: nat)
    ensures p >= 1
  {
    if k == 0 then 1 else 2 * Pow2(k - 1)
  }

  /** Bitwise exclusive or. */
  function Xor(a: nat, b: nat): nat
    decreases a + b
  {
    if a == 0 && b == 0 then 0 else 2 * Xor(a / 2, b / 2) + (if a % 2 == b % 2 then 0 else 1)
  }

  /** Bitwise and. */
  function And(a: nat, b: nat): (r: nat)
    ensures r <= a
    decreases a
  {
    if a == 0 then 0 else 2 * And(a / 2, b / 2) + (a % 2) * (b % 2)
  }

  /** Bit k of b: b & (1 << k). */
  predicate Bit(b: nat, k: nat)
  {
    if k == 0 then b % 2 == 1 else Bit(b / 2, k - 1)
  }

  /** b | (1 << k). */
  function SetBit(b: nat, k: nat): nat
  {
    if k == 0 then b / 2 * 2 + 1 else 2 * SetBit(b / 2, k - 1) + b % 2
  }

  function Fill(n: nat, b: Byte): (s: seq<Byte>)
    ensures |s| == n && forall i :: 0 <= i < n ==> s[i] == b
  {
    seq(n, _ => b)
  }

  lemma {:induction false} XorComm(a: nat, b: nat)
    ensures Xor(a, b) == Xor(b, a)
    decreases a + b
  {
    if a + b > 0 { XorComm(a / 2, b / 2); }
  }

  lemma {:induction false} XorZero(a: nat)
    ensures Xor(a, 0) == a && Xor(0, a) == a
  {
    if a > 0 { XorZero(a / 2); }
  }

  lemma {:induction false} XorSelf(a: nat)
    ensures Xor(a, a) == 0
  {
    if a > 0 { XorSelf(a / 2); }
  }

  lemma XorHalves(a: nat, b: nat)
    ensures Xor(a, b) / 2 == Xor(a / 2, b / 2)
    ensures Xor(a, b) % 2 == if a % 2 == b % 2 then 0 else 1
  {
  }

  lemma {:induction false} XorAssoc(a: nat, b: nat, c: nat)
    ensures Xor(Xor(a, b), c) == Xor(a, Xor(b, c))
    decreases a + b + c
  {
    if a + b + c > 0 {
      XorAssoc(a / 2, b / 2, c / 2);
      XorHalves(a, b);
      XorHalves(b, c);
      var x, y := Xor(a, b), Xor(b, c);
      XorHalves(x, c);
      XorHalves(a, y);
      FromHalves(Xor(x, c), Xor(a, y));
    }
  }

  lemma FromHalves(x: nat, y: nat)
    requires x / 2 == y / 2 && x % 2 == y % 2
    ensures x == y
  {
  }

  /** Undoing an exclusive or with the same mask. */
  lemma XorTwice(a: nat, m: nat)
    ensures Xor(Xor(a, m), m) == a
  {
    XorAssoc(a, m, m);
    XorSelf(m);
    XorZero(a);
  }

  /** Two equal operands hide nothing: equality is a zero difference. */
  lemma XorEqualIffZero(a: nat, b: nat)
    ensures a == b <==> Xor(a, b) == 0
  {
    XorSelf(a);
    XorTwice(a, b);
    XorZero(b);
  }

  /** (a ^ b) ^ (c ^ d) == (a ^ c) ^ (b ^ d) */
  lemma XorSwap(a: nat, b: nat, c: nat, d: nat)
    ensures Xor(Xor(a, b), Xor(c, d)) == Xor(Xor(a, c), Xor(b, d))
  {
    XorAssoc(a, b, Xor(c, d));
    XorAssoc(b, c, d);
    XorComm(b, c);
    XorAssoc(c, b, d);
    XorAssoc(a, c, Xor(b, d));
  }

  lemma {:induction false} XorBound(a: nat, b: nat, k: nat)
    requires a < Pow2(k) && b < Pow2(k)
    ensures Xor(a, b) < Pow2(k)
    decreases k
  {
    if k > 0 { XorBound(a / 2, b / 2, k - 1); XorHalves(a, b); }
  }

  lemma ModHalves(x: nat, k: nat)
    requires k > 0
    ensures x % Pow2(k) / 2 == x / 2 % Pow2(k - 1)
    ensures x % Pow2(k) % 2 == x % 2
  {
    var p := Pow2(k - 1);
    var q, r := x / 2 / p, x / 2 % p;
    assert x == (q * p + r) * 2 + x % 2;
    assert x == q * (2 * p) + (2 * r + x % 2);
    DivModBy(x, 2 * p, q, 2 * r + x % 2);
  }

  /** Quotient and remainder are unique. */
  lemma DivModBy(n: nat, p: nat, q: nat, r: nat)
    requires p > 0 && r < p && n == q * p + r
    ensures n / p == q && n % p == r
  {
    var q2 := n / p;
    assert n == q2 * p + n % p;
    assert (q - q2) * p == n % p - r;
    MulSmall(q - q2, p);
  }

  /** A 32-bit number is the sum of its four bytes. */
  lemma FourBytes(n: nat)
    requires n < 0x1_0000_0000
    ensures n == n % 256 + 256 * (n / 256 % 256) + 65536 * (n / 65536 % 256) + 16777216 * (n / 16777216 % 256)
  {
    var q := n / 256;
    var r := q / 256;
    var t := r / 256;
    DivModBy(n, 65536, r, 256 * (q % 256) + n % 256);
    DivModBy(n, 16777216, t, 65536 * (r % 256) + 256 * (q % 256) + n % 256);
    DivModBy(t, 256, 0, t);
  }

  lemma MulSmall(d: int, p: int)
    requires 0 < p && 0 - p < d * p < p
    ensures d == 0
  {
    if d != 0 { MulAtLeast(if d > 0 then d else -d, p); }
  }

  lemma MulAtLeast(d: int, p: int)
    requires d >= 1 && p >= 1
    ensures d * p >= p && (-d) * p <= -p
  {
    assert d * p == (d - 1) * p + p;
    assert (-d) * p == -(d * p);
  }

  /** Truncating to k bits commutes with exclusive or. */
  lemma {:induction false} XorMod(a: nat, b: nat, k: nat)
    ensures Xor(a, b) % Pow2(k) == Xor(a % Pow2(k), b % Pow2(k))
    decreases k
  {
    if k > 0 {
      ModHalves(a, k);
      ModHalves(b, k);
      ModHalves(Xor(a, b), k);
      XorHalves(a, b);
      XorMod(a / 2, b / 2, k - 1);
      XorHalves(a % Pow2(k), b % Pow2(k));
      FromHalves(Xor(a, b) % Pow2(k), Xor(a % Pow2(k), b % Pow2(k)));
    }
  }

  /** Programming an erased cell stores the byte. */
  lemma {:induction false} AndOnes(x: nat, k: nat)
    requires x < Pow2(k)
    ensures And(Pow2(k) - 1, x) == x
    decreases k
  {
    if k > 0 {
      assert (Pow2(k) - 1) / 2 == Pow2(k - 1) - 1;
      AndOnes(x / 2, k - 1);
    }
  }

  lemma AndByte(x: Byte)
    ensures And(255, x) == x
  {
    assert Pow2(8) == 256;
    AndOnes(x, 8);
  }

  lemma {:induction false} OnesAnd(x: nat, k: nat)
    requires x < Pow2(k)
    ensures And(x, Pow2(k) - 1) == x
    decreases k
  {
    if k > 0 {
      assert (Pow2(k) - 1) / 2 == Pow2(k - 1) - 1;
      OnesAnd(x / 2, k - 1);
    }
  }

  /** Programming 0xFF leaves the cell alone. */
  lemma ByteAnd(x: Byte)
    ensures And(x, 255) == x
  {
    assert Pow2(8) == 256;
    OnesAnd(x, 8);
  }

  lemma MulLe(a: nat, b: nat, p: nat)
    requires a <= b
    ensures a * p <= b * p
  {
    assert b * p == a * p + (b - a) * p;
  }

  lemma Join<T>(s: seq<T>, a: nat, b: nat, c: nat)
    requires a <= b <= c <= |s|
    ensures s[a..b] + s[b..c] == s[a..c]
  {
  }

  lemma {:induction false} SetBitTest(b: nat, k: nat, j: nat)
    ensures Bit(SetBit(b, k), j) == (j == k || Bit(b, j))
    decreases k
  {
    var r := SetBit(b, k);
    if k == 0 {
      assert r / 2 == b / 2 && r % 2 == 1;
    } else {
      assert r / 2 == SetBit(b / 2, k - 1) && r % 2 == b % 2;
      if j > 0 { SetBitTest(b / 2, k - 1, j - 1); }
    }
  }

  lemma {:induction false} SetBitBound(b: nat, k: nat, n: nat)
    requires k < n && b < Pow2(n)
    ensures SetBit(b, k) < Pow2(n)
    decreases k
  {
    if k > 0 {
      HalfBound(b, Pow2(n - 1));
      SetBitBound(b / 2, k - 1, n - 1);
    }
  }

  lemma HalfBound(b: nat, p: nat)
    requires b < 2 * p
    ensures b / 2 < p
  {
  }

  /** Exclusive or with one bit flips it. */
  lemma {:induction false} XorBit(x: nat, k: nat)
    ensures Xor(x, Pow2(k)) == if x / Pow2(k) % 2 == 0 then x + Pow2(k) else x - Pow2(k)
    decreases k
  {
    XorHalves(x, Pow2(k));
    hide Xor;
    if k == 0 {
      XorZero(x / 2);
      assert Pow2(0) / 2 == 0 && x / 1 == x;
    } else {
      XorBit(x / 2, k - 1);
      HalfQuotient(x, Pow2(k - 1));
    }
  }

  lemma HalfQuotient(x: nat, p: nat)
    requires p > 0
    ensures x / (2 * p) == x / 2 / p
  {
    var q, r := x / 2 / p, x / 2 % p;
    assert x == q * (2 * p) + (2 * r + x % 2);
    DivModBy(x, 2 * p, q, 2 * r + x % 2);
  }

  /** No carries between disjoint bits. */
  lemma {:induction false} XorHigh(x: nat, b: nat, k: nat)
    requires b < Pow2(k)
    ensures Xor(x * Pow2(k), b) == x * Pow2(k) + b
    decreases k
  {
    hide Xor;
    if k == 0 {
      XorZero(x);
    } else {
      var p := Pow2(k - 1);
      assert x * Pow2(k) == 2 * (x * p);
      XorHigh(x, b / 2, k - 1);
      XorHalves(x * Pow2(k), b);
      FromHalves(Xor(x * Pow2(k), b), x * Pow2(k) + b);
    }
  }

  /** An exclusive or with ones flips the low bits. */
  lemma {:induction false} XorOnes(x: nat, k: nat)
    ensures Xor(Pow2(k) - 1, x) == x - x % Pow2(k) + (Pow2(k) - 1 - x % Pow2(k))
    decreases k
  {
    hide Xor, Pow2;
    OnesHalves(k);
    XorHalves(Pow2(k) - 1, x);
    if k == 0 {
      XorZero(x);
    } else {
      ModHalves(x, k);
      XorOnes(x / 2, k - 1);
      Doubled(Xor(Pow2(k) - 1, x), x, Pow2(k - 1), x % Pow2(k), x / 2 % Pow2(k - 1));
    }
  }

  lemma Doubled(r: nat, x: nat, p: nat, a: nat, b: nat)
    requires r / 2 == x / 2 - b + (p - 1 - b) && r % 2 == 1 - x % 2 && a / 2 == b && a % 2 == x % 2
    ensures r == x - a + (2 * p - 1 - a)
  {
  }

  lemma OnesHalves(k: nat)
    ensures k == 0 ==> Pow2(k) == 1
    ensures k > 0 ==> Pow2(k) == 2 * Pow2(k - 1) && (Pow2(k) - 1) / 2 == Pow2(k - 1) - 1 && (Pow2(k) - 1) % 2 == 1
  {
  }

  /** Bitwise and, bit by bit. */
  lemma {:induction false} AndBit(a: nat, b: nat, k: nat)
    ensures Bit(And(a, b), k) <==> Bit(a, k) && Bit(b, k)
    decreases k
  {
    AndHalves(a, b);
    hide And;
    if k > 0 { AndBit(a / 2, b / 2, k - 1); }
  }

  lemma AndHalves(a: nat, b: nat)
    ensures And(a, b) / 2 == And(a / 2, b / 2)
    ensures And(a, b) % 2 == if a % 2 == 1 && b % 2 == 1 then 1 else 0
  {
    LowProduct(a % 2, b % 2);
    if a > 0 { TwoParts(And(a, b), And(a / 2, b / 2), (a % 2) * (b % 2)); }
  }

  lemma LowProduct(x: nat, y: nat)
    requires x < 2 && y < 2
    ensures x * y == if x == 1 && y == 1 then 1 else 0
  {
    if x == 0 { assert x * y == 0; } else { assert x * y == y; }
  }

  lemma TwoParts(x: nat, y: nat, low: nat)
    requires x == 2 * y + low && low < 2
    ensures x / 2 == y && x % 2 == low
  {
  }

  lemma XorDoubles(a: nat, b: nat)
    ensures Xor(2 * a, 2 * b) == 2 * Xor(a, b)
  {
    XorHalves(2 * a, 2 * b);
    FromHalves(Xor(2 * a, 2 * b), 2 * Xor(a, b));
  }
}
