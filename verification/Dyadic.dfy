/** The geometry of buddy blocks: aligned power-of-two runs of pages.

    The main result, `UniqueDecomposition`, is what makes the buddy allocator
    confluent: a set of pages has at most one decomposition into aligned blocks
    that contains no pair of buddies.
 */
module Dyadic {
  import opened Bits

  /** `Pow2(order)` pages starting at page `addr`. */
  datatype Block = Block(addr: nat, order: nat)

  function End(b: Block): (e: nat)
    ensures e > b.addr
  {
    b.addr + Pow2(b.order)
  }

  predicate Aligned(b: Block) {
    b.addr % Pow2(b.order) == 0
  }

  predicate Holds(b: Block, page: nat) {
    b.addr <= page < End(b)
  }

  predicate Disjoint(b: Block, c: Block) {
    End(b) <= c.addr || End(c) <= b.addr
  }

  /** The block's buddy: same order, address differing in exactly bit `order`. */
  function Buddy(b: Block): Block {
    Block(Xor(b.addr, Pow2(b.order)), b.order)
  }

  function Parent(b: Block): Block {
    Block(if b.addr <= Buddy(b).addr then b.addr else Buddy(b).addr, b.order + 1)
  }

  /** The aligned block with index `q` among those of its order. */
  function Nth(q: nat, order: nat): (b: Block)
    ensures b.order == order
  {
    Block(Pow2(order) * q, order)
  }

  lemma NthAligned(q: nat, order: nat)
    ensures Aligned(Nth(q, order))
    ensures q % 2 == 0 ==> Buddy(Nth(q, order)) == Nth(q + 1, order)
    ensures q % 2 == 1 ==> Buddy(Nth(q, order)) == Nth(q - 1, order)
    ensures End(Nth(q, order)) == Nth(q + 1, order).addr
    ensures Nth(2 * q, order).addr == Nth(q, order + 1).addr
  {
    hide Pow2;
    hide Xor;
    hide Bit;
    DivModUnique(Pow2(order) * q, Pow2(order), q, 0);
    NthNext(q, order);
    if q >= 1 { NthNext(q - 1, order); }
    NthDouble(q, order);
    BitOfMultiple(q, order);
    XorBit(Nth(q, order).addr, order);
  }

  lemma NthNext(q: nat, order: nat)
    ensures Nth(q + 1, order).addr == Nth(q, order).addr + Pow2(order)
  {
    hide Pow2;
  }

  lemma NthDouble(q: nat, order: nat)
    ensures Nth(2 * q, order).addr == Nth(q, order + 1).addr
  {
    var p := Pow2(order);
    MulAssoc(2, p, q);
    assert p * (2 * q) == 2 * (p * q);
  }

  lemma AlignedIsNth(b: Block) returns (q: nat)
    requires Aligned(b)
    ensures b == Nth(q, b.order)
  {
    q := b.addr / Pow2(b.order);
  }

  /** Buddies are aligned, adjacent, mutual, and together make up their aligned parent. */
  lemma BuddyFacts(b: Block)
    requires Aligned(b)
    ensures Aligned(Buddy(b)) && Buddy(Buddy(b)) == b && Buddy(b) != b
    ensures Disjoint(b, Buddy(b))
    ensures Aligned(Parent(b)) && Parent(Buddy(b)) == Parent(b)
    ensures End(Parent(b)) == if b.addr < Buddy(b).addr then End(Buddy(b)) else End(b)
    ensures End(Block(Parent(b).addr, b.order)) == if b.addr < Buddy(b).addr then Buddy(b).addr else b.addr
  {
    hide Aligned;
    hide Nth;
    hide Buddy;
    hide Pow2;
    var q := AlignedIsNth(b);
    var k, half := b.order, q / 2;
    var even := 2 * half;
    NthAligned(even, k);
    NthAligned(even + 1, k);
    NthAligned(half, k);
    NthAligned(half + 1, k);
    NthAligned(half, k + 1);
    assert Parent(b) == Nth(half, k + 1);
  }

  /** The two halves of an aligned block are aligned buddies. */
  lemma HalfFacts(b: Block)
    requires Aligned(b) && b.order > 0
    ensures Aligned(Block(b.addr, b.order - 1))
    ensures Aligned(Block(b.addr + Pow2(b.order - 1), b.order - 1))
    ensures Buddy(Block(b.addr, b.order - 1)) == Block(b.addr + Pow2(b.order - 1), b.order - 1)
  {
    hide Aligned;
    hide Nth;
    hide Buddy;
    hide Pow2;
    var q := AlignedIsNth(b);
    var k := b.order - 1;
    NthAligned(q, k);
    NthAligned(2 * q, k);
    NthAligned(2 * q + 1, k);
    assert Block(b.addr, k) == Nth(2 * q, k) && Block(b.addr + Pow2(k), k) == Nth(2 * q + 1, k);
  }

  lemma NthHolds(q: nat, order: nat, page: nat)
    requires Holds(Nth(q, order), page)
    ensures q == page / Pow2(order)
  {
    hide Pow2;
    DivModUnique(page, Pow2(order), q, page - Pow2(order) * q);
  }

  lemma SameOrder(b: Block, c: Block, page: nat)
    requires Aligned(b) && Aligned(c) && b.order == c.order && Holds(b, page) && Holds(c, page)
    ensures b == c
  {
    hide Aligned;
    hide Nth;
    hide Holds;
    var q := AlignedIsNth(b);
    var r := AlignedIsNth(c);
    NthHolds(q, b.order, page);
    NthHolds(r, b.order, page);
  }

  /** Aligned blocks nest: of two that share a page the smaller lies inside the larger. */
  lemma {:induction false} Nested(b: Block, c: Block, page: nat)
    requires Aligned(b) && Aligned(c) && b.order <= c.order
    requires Holds(b, page) && Holds(c, page)
    ensures c.addr <= b.addr && End(b) <= End(c)
    ensures b.order == c.order ==> b == c
    decreases c.order - b.order
  {
    hide Aligned;
    hide Buddy;
    hide Pow2;
    if b.order == c.order {
      SameOrder(b, c, page);
    } else {
      BuddyFacts(b);
      Nested(Parent(b), c, page);
    }
  }

  ghost predicate Covered(blocks: set<Block>, page: nat) {
    exists b :: b in blocks && Holds(b, page)
  }

  /** Aligned and pairwise disjoint. */
  ghost predicate Tiling(blocks: set<Block>) {
    && (forall b :: b in blocks ==> Aligned(b))
    && (forall b, c :: b in blocks && c in blocks && b != c ==> Disjoint(b, c))
  }

  /** No two buddies are both present. */
  ghost predicate Coalesced(blocks: set<Block>) {
    forall b :: b in blocks ==> Buddy(b) !in blocks
  }

  /** A region that a tiling covers by strictly smaller blocks contains a pair of buddies. */
  lemma {:induction false} FineCoverHasBuddies(blocks: set<Block>, region: Block)
    requires Tiling(blocks) && Aligned(region)
    requires forall page :: Holds(region, page) ==> Covered(blocks, page)
    requires forall b :: b in blocks && !Disjoint(b, region) ==> b.order < region.order
    ensures !Coalesced(blocks)
    decreases region.order
  {
    hide Aligned;
    hide Buddy;
    assert Holds(region, region.addr);
    var b :| b in blocks && Holds(b, region.addr);
    assert !Disjoint(b, region);
    HalfFacts(region);
    var left := Block(region.addr, region.order - 1);
    var right := Block(region.addr + Pow2(region.order - 1), region.order - 1);
    if left in blocks && right in blocks {
      assert Buddy(left) == right;
    } else {
      var half := if left in blocks then right else left;
      forall page | Holds(half, page) ensures Covered(blocks, page) {
        assert Holds(region, page);
      }
      forall c | c in blocks && !Disjoint(c, half) ensures c.order < half.order {
        assert !Disjoint(c, region);
        if c.order == half.order {
          var page := if c.addr <= half.addr then half.addr else c.addr;
          Nested(c, half, page);
          assert false;
        }
      }
      FineCoverHasBuddies(blocks, half);
    }
  }

  lemma SubsetOfSameCover(s: set<Block>, t: set<Block>)
    requires Tiling(s) && Tiling(t) && Coalesced(s) && Coalesced(t)
    requires forall page :: Covered(s, page) <==> Covered(t, page)
    ensures s <= t
  {
    forall b | b in s ensures b in t {
      assert Holds(b, b.addr) && Covered(s, b.addr);
      var c :| c in t && Holds(c, b.addr);
      if c.order == b.order {
        Nested(b, c, b.addr);
      } else if c.order < b.order {
        Nested(c, b, b.addr);
        StrictlyInside(t, s, c, b);
        assert false;
      } else {
        Nested(b, c, b.addr);
        StrictlyInside(s, t, b, c);
        assert false;
      }
    }
  }

  /** If a block of one tiling lies strictly inside a block the other tiling also covers,
      the finer tiling cannot be coalesced. */
  lemma StrictlyInside(fine: set<Block>, coarse: set<Block>, c: Block, b: Block)
    requires Tiling(fine) && Tiling(coarse)
    requires c in fine && b in coarse && c.order < b.order
    requires b.addr <= c.addr && End(c) <= End(b)
    requires forall page :: Covered(coarse, page) ==> Covered(fine, page)
    ensures !Coalesced(fine)
  {
    forall page | Holds(b, page) ensures Covered(fine, page) {
      assert Covered(coarse, page);
    }
    forall d | d in fine && !Disjoint(d, b) ensures d.order < b.order {
      if d.order >= b.order {
        var page := if d.addr <= b.addr then b.addr else d.addr;
        Nested(b, d, page);
        assert false;
      }
    }
    FineCoverHasBuddies(fine, b);
  }

  /** A set of pages has at most one buddy-free decomposition into aligned blocks. */
  lemma UniqueDecomposition(s: set<Block>, t: set<Block>)
    requires Tiling(s) && Tiling(t) && Coalesced(s) && Coalesced(t)
    requires forall page :: Covered(s, page) <==> Covered(t, page)
    ensures s == t
  {
    SubsetOfSameCover(s, t);
    SubsetOfSameCover(t, s);
  }
}
