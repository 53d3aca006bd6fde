/** The hash of the slab index: three xor folds of the page number, masked. */
module SlabHash {
  import opened Bits

  function And(a: nat, b: nat): (r: nat)
    ensures r <= b
  {
    if a == 0 || b == 0 then 0 else (a % 2) * (b % 2) + 2 * And(a / 2, b / 2)
  }

  function Fold(x: nat, m: nat): nat
    requires m > 0
  {
    Xor(x, x / m)
  }

  /** Three xor folds, by 32, 16 and 8 bits. */
  function Mix(page: nat): nat {
    Fold(Fold(Fold(page, 0x1_0000_0000), 0x1_0000), 0x100)
  }

  /** The bucket of a page: its mixed number, masked and cut to 32 bits. */
  function Hash(page: nat, mask: nat): (h: nat)
    ensures h <= mask
  {
    And(Mix(page), mask) % 0x1_0000_0000
  }

  // -------------------------------------------------------------- halves of a number

  /** The low `k` bits of a number, and the others. */
  function Low(x: nat, k: nat): nat { if k == 0 then 0 else x % 2 + 2 * Low(x / 2, k - 1) }
  function High(x: nat, k: nat): nat { if k == 0 then x else High(x / 2, k - 1) }

  lemma {:induction false} HighIs(x: nat, k: nat)
    ensures High(x, k) == x / Pow2(k)
  {
    if k > 0 {
      HighIs(x / 2, k - 1);
      DivDiv(x, 2, Pow2(k - 1));
    }
  }

  lemma {:induction false} SameBits(x: nat, y: nat, k: nat)
    requires High(x, k) == High(y, k) && Low(x, k) == Low(y, k)
    ensures x == y
  {
    if k > 0 { SameBits(x / 2, y / 2, k - 1); }
  }

  lemma {:induction false} HighAbove(x: nat, k: nat, j: nat)
    requires k <= j
    ensures High(x, j) == High(High(x, k), j - k)
  {
    if k > 0 { HighAbove(x / 2, k - 1, j - 1); }
  }

  /** Masking with `2^k - 1` keeps the low `k` bits. */
  lemma {:induction false} AndLow(a: nat, k: nat)
    ensures And(a, Pow2(k) - 1) == Low(a, k)
  {
    hide And;
    if k > 0 {
      AndLow(a / 2, k - 1);
      AndOdd(a, Pow2(k - 1) - 1);
    } else {
      AndNone(a);
    }
  }

  lemma AndNone(a: nat)
    ensures And(a, 0) == 0
  {
  }

  lemma AndOdd(a: nat, b: nat)
    ensures And(a, 2 * b + 1) == a % 2 + 2 * And(a / 2, b)
  {
    assert (2 * b + 1) % 2 == 1 && (2 * b + 1) / 2 == b;
    if a == 0 { assert And(0, b) == 0; }
  }

  lemma XorStep(a: nat, b: nat)
    ensures Xor(a, b) % 2 == (a % 2 + b % 2) % 2 && Xor(a, b) / 2 == Xor(a / 2, b / 2)
  {
  }

  lemma XorJoin(x: nat, y: nat, a: nat, b: nat)
    requires x < 2 && y < 2
    ensures Xor(x + 2 * a, y + 2 * b) == (x + y) % 2 + 2 * Xor(a, b)
  {
    assert (x + 2 * a) / 2 == a && (y + 2 * b) / 2 == b;
  }

  /** Low and high bits of an xor are the xors of the low and the high bits. */
  lemma {:induction false} XorHalves(a: nat, b: nat, k: nat)
    ensures Low(Xor(a, b), k) == Xor(Low(a, k), Low(b, k)) && High(Xor(a, b), k) == Xor(High(a, k), High(b, k))
  {
    hide Xor;
    XorStep(a, b);
    if k == 0 {
      XorZero(0);
    } else {
      XorHalves(a / 2, b / 2, k - 1);
      XorJoin(a % 2, b % 2, Low(a / 2, k - 1), Low(b / 2, k - 1));
    }
  }

  lemma {:induction false} XorCancels(a: nat, b: nat, c: nat)
    requires Xor(a, c) == Xor(b, c)
    ensures a == b
    decreases a + b + c
  {
    if a + b + c > 0 {
      XorStep(a, c);
      XorStep(b, c);
      XorCancels(a / 2, b / 2, c / 2);
    }
  }

  // -------------------------------------------------------------- spreading

  /** A fold by at least `k` bits keeps the high bits equal, and the low bits of different numbers different. */
  lemma FoldKeeps(x: nat, y: nat, k: nat, j: nat, m: nat)
    requires High(x, k) == High(y, k) && k <= j && m == Pow2(j)
    ensures High(Fold(x, m), k) == High(Fold(y, m), k)
    ensures Low(Fold(x, m), k) == Low(Fold(y, m), k) ==> x == y
  {
    hide Low;
    hide High;
    hide Xor;
    HighIs(x, j);
    HighIs(y, j);
    HighAbove(x, k, j);
    HighAbove(y, k, j);
    XorHalves(x, High(x, j), k);
    XorHalves(y, High(y, j), k);
    if Low(Fold(x, m), k) == Low(Fold(y, m), k) {
      XorCancels(Low(x, k), Low(y, k), Low(High(x, j), k));
      SameBits(x, y, k);
    }
  }

  lemma MixDiffers(x: nat, y: nat, k: nat)
    requires k <= 8 && High(x, k) == High(y, k) && x != y
    ensures Low(Mix(x), k) != Low(Mix(y), k)
  {
    hide Fold;
    hide Low;
    hide High;
    hide Pow2;
    Shifts();
    var a, b := Fold(x, 0x1_0000_0000), Fold(y, 0x1_0000_0000);
    FoldKeeps(x, y, k, 32, 0x1_0000_0000);
    FoldKeeps(a, b, k, 16, 0x1_0000);
    FoldKeeps(Fold(a, 0x1_0000), Fold(b, 0x1_0000), k, 8, 0x100);
  }

  lemma Shifts()
    ensures Pow2(8) == 0x100 && Pow2(16) == 0x1_0000 && Pow2(32) == 0x1_0000_0000
  {
    assert Pow2(8) == 0x100;
    Pow2Add(8, 8);
    Pow2Add(16, 16);
  }

  /** The pages of an aligned run of `2^k` pages, up to 256, hash to different buckets of a table of that many. */
  lemma Spreads(x: nat, y: nat, k: nat)
    requires k <= 8 && x / Pow2(k) == y / Pow2(k) && x != y
    ensures Hash(x, Pow2(k) - 1) != Hash(y, Pow2(k) - 1)
  {
    hide Hash;
    hide Low;
    hide High;
    hide Pow2;
    HighIs(x, k);
    HighIs(y, k);
    MixDiffers(x, y, k);
    HashLow(x, k);
    HashLow(y, k);
  }

  lemma HashLow(x: nat, k: nat)
    requires k <= 8
    ensures Hash(x, Pow2(k) - 1) == Low(Mix(x), k)
  {
    hide Mix;
    hide And;
    hide Low;
    hide Pow2;
    Shifts();
    Pow2Monotone(k, 8);
    AndLow(Mix(x), k);
  }
}
