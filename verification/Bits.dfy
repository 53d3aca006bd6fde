/** Powers of two, division, exclusive or on natural numbers, and counting in bitmaps.

    C's unsigned `^` is defined here bit by bit, so that the kernel's buddy
    computation can be written as it stands; `XorBit` turns it into arithmetic.
 */
module Bits {

  function Pow2(k: nat): (r: nat)
    ensures r >= 1
  {
    if k == 0 then 1 else 2 * Pow2(k - 1)
  }

  function Xor(a: nat, b: nat): nat {
    if a == 0 && b == 0 then 0 else (a % 2 + b % 2) % 2 + 2 * Xor(a / 2, b / 2)
  }

  lemma {:induction false} Pow2Monotone(j: nat, k: nat)
    requires j <= k
    ensures Pow2(j) <= Pow2(k)
    decreases k
  {
    if j < k { Pow2Monotone(j, k - 1); }
  }

  lemma Pow2Distinct(j: nat, k: nat)
    requires j != k
    ensures Pow2(j) != Pow2(k)
  {
    if j < k { Pow2Monotone(j + 1, k); } else { Pow2Monotone(k + 1, j); }
  }

  lemma {:induction false} Pow2Add(j: nat, k: nat)
    ensures Pow2(j + k) == Pow2(j) * Pow2(k)
  {
    if j > 0 {
      Pow2Add(j - 1, k);
      MulAssoc(2, Pow2(j - 1), Pow2(k));
    }
  }

  /** Euclidean division is determined by its defining equation. */
  lemma DivModUnique(x: nat, d: nat, q: nat, r: nat)
    requires r < d && x == d * q + r
    ensures x / d == q && x % d == r
  {
    var q', r' := x / d, x % d;
    assert x == d * q' + r' && 0 <= r' < d;
    if q' > q {
      assert d * q' >= d * (q + 1) by { MulMonotone(d, q + 1, q'); }
    } else if q' < q {
      assert d * q >= d * (q' + 1) by { MulMonotone(d, q' + 1, q); }
    }
  }

  lemma MulMonotone(d: nat, a: nat, b: nat)
    requires a <= b
    ensures d * a <= d * b
  {
  }

  lemma DivMonotone(a: nat, b: nat, d: nat)
    requires a <= b && d > 0
    ensures a / d <= b / d
  {
    assert a == d * (a / d) + a % d && b == d * (b / d) + b % d;
    if b / d + 1 <= a / d {
      MulMonotone(d, b / d + 1, a / d);
    }
  }

  lemma DivDiv(x: nat, a: nat, b: nat)
    requires a > 0 && b > 0
    ensures a * b > 0 && x / (a * b) == (x / a) / b
  {
    var q, r := x / a, x % a;
    assert x == a * q + r && q == b * (q / b) + q % b;
    assert x == (a * b) * (q / b) + (a * (q % b) + r);
    MulMonotone(a, q % b + 1, b);
    assert a * (q % b + 1) == a * (q % b) + a;
    DivModUnique(x, a * b, q / b, a * (q % b) + r);
  }

  lemma {:induction false} XorZero(a: nat)
    ensures Xor(a, 0) == a
  {
    if a > 0 { XorZero(a / 2); }
  }

  function Bit(a: nat, k: nat): nat {
    if k == 0 then a % 2 else Bit(a / 2, k - 1)
  }

  lemma {:induction false} BitOfMultiple(q: nat, k: nat)
    ensures Bit(Pow2(k) * q, k) == q % 2
  {
    if k > 0 {
      var p := Pow2(k - 1);
      assert Pow2(k) * q == 2 * (p * q) by { MulAssoc(2, p, q); }
      BitOfMultiple(q, k - 1);
    }
  }

  lemma MulAssoc(a: nat, b: nat, c: nat)
    ensures (a * b) * c == a * (b * c)
  {
  }

  /** XOR with a single bit flips that bit: it adds the bit when clear, removes it when set. */
  lemma {:induction false} XorBit(a: nat, k: nat)
    ensures Xor(a, Pow2(k)) as int == if Bit(a, k) == 0 then a + Pow2(k) else a - Pow2(k)
    decreases k
  {
    if k == 0 {
      XorZero(a / 2);
    } else {
      var p := Pow2(k - 1);
      assert Pow2(k) == 2 * p;
      XorBit(a / 2, k - 1);
      assert Xor(a, 2 * p) == a % 2 + 2 * Xor(a / 2, p);
    }
  }

  /** The least multiple of `p` that is at least `x`. */
  function AlignUp(x: nat, p: nat): nat
    requires p > 0
  {
    (x + p - 1) / p * p
  }

  lemma AlignUpFacts(x: nat, p: nat)
    requires p > 0
    ensures x <= AlignUp(x, p) < x + p && AlignUp(x, p) % p == 0
  {
    var q := (x + p - 1) / p;
    assert x + p - 1 == p * q + (x + p - 1) % p;
    DivModUnique(p * q, p, q, 0);
  }

  lemma AlignUpLeast(x: nat, p: nat, y: nat)
    requires p > 0 && x <= y && y % p == 0
    ensures AlignUp(x, p) <= y
  {
    var m := y / p;
    DivModUnique(y + p - 1, p, m, p - 1);
    DivMonotone(x + p - 1, y + p - 1, p);
    MulMonotone(p, (x + p - 1) / p, m);
  }

  // -------------------------------------------------------------- bitmaps

  function ClearBits(bitmap: seq<bool>): nat {
    if bitmap == [] then 0
    else ClearBits(bitmap[..|bitmap| - 1]) + if bitmap[|bitmap| - 1] then 0 else 1
  }

  lemma {:induction false} ClearBitsUpdate(bitmap: seq<bool>, j: nat, v: bool)
    requires j < |bitmap|
    ensures ClearBits(bitmap[j := v]) == ClearBits(bitmap) + (if bitmap[j] then 1 else 0) - (if v then 1 else 0)
  {
    var n := |bitmap| - 1;
    if j == n {
      assert bitmap[j := v][..n] == bitmap[..n];
    } else {
      assert bitmap[j := v][..n] == bitmap[..n][j := v];
      ClearBitsUpdate(bitmap[..n], j, v);
    }
  }
}
