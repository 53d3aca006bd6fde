/** One chunk of the buddy allocator: its table of tracked blocks, the greedy carve
    that first fills it, and what a split, a merge and an allocation do to it.
 */
module PageChunk {
  import opened Bits
  import opened Dyadic

  const MAX_ORDER := 12
  const MAX_CHUNK_ORDER := 11

  /** A `struct page_block`; address 0 marks a spare slot. */
  datatype Slot = Slot(addr: nat, order: nat, inUse: bool) {
    predicate Used() { addr != 0 }
    predicate Free() { addr != 0 && !inUse }
    predicate Live() { addr != 0 && inUse }
    function AsBlock(): Block { Block(addr, order) }
  }

  const SPARE := Slot(0, 0, false)

  /** `size` usable pages from page `base`; the page before `base` holds the table itself. */
  datatype Chunk = Chunk(base: nat, size: nat, slots: seq<Slot>, allocatedBlocks: int) {
    predicate Has(page: nat) { base <= page < base + size }
  }

  ghost function FreeBlocks(slots: seq<Slot>): set<Block> {
    set i | 0 <= i < |slots| && slots[i].Free() :: slots[i].AsBlock()
  }

  /** Some tracked block, free or allocated, contains the page. */
  ghost predicate Tracked(slots: seq<Slot>, page: nat) {
    exists i :: 0 <= i < |slots| && slots[i].Used() && Holds(slots[i].AsBlock(), page)
  }

  ghost predicate LivePage(slots: seq<Slot>, page: nat) {
    exists i :: 0 <= i < |slots| && slots[i].Live() && Holds(slots[i].AsBlock(), page)
  }

  ghost predicate InBounds(ch: Chunk, b: Block) {
    Aligned(b) && ch.base <= b.addr && End(b) <= ch.base + ch.size && b.order <= MAX_ORDER
  }

  /** Tracked blocks are aligned, inside the chunk and pairwise disjoint. */
  ghost predicate Geometry(ch: Chunk) {
    && ch.base > 0
    && (forall i :: 0 <= i < |ch.slots| && ch.slots[i].Used() ==> InBounds(ch, ch.slots[i].AsBlock()))
    && (forall i :: 0 <= i < |ch.slots| && ch.slots[i].Live() ==> ch.slots[i].order <= MAX_CHUNK_ORDER)
    && (forall i, j :: 0 <= i < |ch.slots| && 0 <= j < |ch.slots| && i != j && ch.slots[i].Used() && ch.slots[j].Used() ==>
          Disjoint(ch.slots[i].AsBlock(), ch.slots[j].AsBlock()))
  }

  /** No two free blocks below the top order are buddies; slot `held` is left out of account. */
  ghost predicate Merged(slots: seq<Slot>, held: int) {
    forall i, j :: 0 <= i < |slots| && 0 <= j < |slots| && i != held && j != held &&
                   slots[i].Free() && slots[j].Free() && slots[i].order < MAX_CHUNK_ORDER ==>
                   slots[j].AsBlock() != Buddy(slots[i].AsBlock())
  }

  /** The tracked blocks and the lost halves partition the pages the chunk was carved into. */
  ghost predicate Conserved(ch: Chunk, lost: set<Block>) {
    && (forall page: nat :: Covered(Carved(ch), page) <==> Tracked(ch.slots, page) || Covered(lost, page))
    && (forall page: nat :: !(Tracked(ch.slots, page) && Covered(lost, page)))
  }

  ghost predicate Sound(ch: Chunk, lost: set<Block>, held: int) {
    Geometry(ch) && Merged(ch.slots, held) && Conserved(ch, lost)
  }

  // ---------------------------------------------------------------- the greedy carve

  /** An aligned block of this order fits in pages `cur .. end`. */
  predicate Fits(cur: nat, end: nat, order: nat) {
    AlignUp(cur, Pow2(order)) + Pow2(order) <= end
  }

  /** The largest order up to `order` that fits, trying from the top down. */
  function BestOrder(cur: nat, end: nat, order: nat): (r: nat)
    requires cur < end
    ensures r <= order && Fits(cur, end, r)
    ensures forall k :: r < k <= order ==> !Fits(cur, end, k)
  {
    if order == 0 || Fits(cur, end, order) then order else BestOrder(cur, end, order - 1)
  }

  /** The blocks carved from pages `cur .. end` into at most `n` slots. */
  function Carve(cur: nat, end: nat, n: nat): seq<Block>
    decreases n
  {
    if n == 0 || cur >= end then [] else
      var b := FirstBlock(cur, end);
      [b] + Carve(End(b), end, n - 1)
  }

  lemma CarveStep(cur: nat, end: nat, n: nat)
    ensures cur >= end || n == 0 ==> Carve(cur, end, n) == []
    ensures cur < end && n > 0 ==> Carve(cur, end, n) == [FirstBlock(cur, end)] + Carve(End(FirstBlock(cur, end)), end, n - 1)
  {
  }

  function FirstBlock(cur: nat, end: nat): Block
    requires cur < end
  {
    var k := BestOrder(cur, end, MAX_CHUNK_ORDER);
    Block(AlignUp(cur, Pow2(k)), k)
  }

  ghost function Carved(ch: Chunk): set<Block> {
    var c := Carve(ch.base, ch.base + ch.size, |ch.slots|);
    set i | 0 <= i < |c| :: c[i]
  }

  /** An aligned block inside `cur .. end` means its order fits there. */
  lemma FitsIfContains(cur: nat, end: nat, b: Block)
    requires Aligned(b) && cur <= b.addr && End(b) <= end
    ensures Fits(cur, end, b.order)
  {
    AlignUpLeast(cur, Pow2(b.order), b.addr);
  }

  /** Carved blocks are aligned, in order, inside the range and capped at order 11. */
  lemma {:induction false} CarveInRange(cur: nat, end: nat, n: nat)
    ensures forall i :: 0 <= i < |Carve(cur, end, n)| ==>
              var b := Carve(cur, end, n)[i];
              Aligned(b) && cur <= b.addr && End(b) <= end && b.order <= MAX_CHUNK_ORDER
    ensures forall i, j :: 0 <= i < j < |Carve(cur, end, n)| ==> End(Carve(cur, end, n)[i]) <= Carve(cur, end, n)[j].addr
    ensures |Carve(cur, end, n)| <= n
    decreases n
  {
    if n > 0 && cur < end {
      var b := FirstBlock(cur, end);
      AlignUpFacts(cur, Pow2(b.order));
      CarveInRange(End(b), end, n - 1);
    }
  }

  /** The carve never leaves two buddies below its order cap: it would have taken their parent. */
  lemma {:induction false} CarveMerged(cur: nat, end: nat, n: nat, i: nat, j: nat)
    requires i < j < |Carve(cur, end, n)| && Carve(cur, end, n)[i].order < MAX_CHUNK_ORDER
    ensures Carve(cur, end, n)[j] != Buddy(Carve(cur, end, n)[i])
    decreases n
  {
    var c := Carve(cur, end, n);
    var b := FirstBlock(cur, end);
    CarveInRange(cur, end, n);
    if i > 0 {
      CarveMerged(End(b), end, n - 1, i - 1, j - 1);
    } else if c[j] == Buddy(b) {
      BuddyFacts(b);
      FitsIfContains(cur, end, Parent(b));
    }
  }

  /** Any window of `2 * 2^order - 1` pages carves a block of at least that order. */
  lemma CarveReaches(cur: nat, size: nat, n: nat, order: nat)
    requires n > 0 && order <= MAX_CHUNK_ORDER && size >= 2 * Pow2(order) - 1
    ensures Carve(cur, cur + size, n) != []
    ensures order <= Carve(cur, cur + size, n)[0].order <= MAX_CHUNK_ORDER
  {
    AlignUpFacts(cur, Pow2(order));
    assert Fits(cur, cur + size, order);
  }

  // ---------------------------------------------------------------- confluence

  /** Two buddies inside `size` pages are of an order below 11 when `size` is at most 8 MB. */
  lemma BuddiesNeedRoom(b: Block, base: nat, size: nat)
    requires Aligned(b) && size <= Pow2(MAX_CHUNK_ORDER)
    requires base <= b.addr && End(b) <= base + size
    requires base <= Buddy(b).addr && End(Buddy(b)) <= base + size
    ensures b.order < MAX_CHUNK_ORDER
  {
    BuddyFacts(b);
    if b.order >= MAX_CHUNK_ORDER { Pow2Monotone(MAX_CHUNK_ORDER, b.order); }
  }

  /** No order-11 pair fits in 8 MB, so up to that size the merge is complete. */
  lemma SmallChunkCoalesced(ch: Chunk, lost: set<Block>)
    requires Sound(ch, lost, -1) && ch.size <= Pow2(MAX_CHUNK_ORDER)
    ensures Tiling(FreeBlocks(ch.slots)) && Coalesced(FreeBlocks(ch.slots))
  {
    var s := FreeBlocks(ch.slots);
    forall b | b in s ensures Buddy(b) !in s {
      var i :| 0 <= i < |ch.slots| && ch.slots[i].Free() && ch.slots[i].AsBlock() == b;
      if Buddy(b) in s {
        var j :| 0 <= j < |ch.slots| && ch.slots[j].Free() && ch.slots[j].AsBlock() == Buddy(b);
        assert InBounds(ch, b) && InBounds(ch, Buddy(b));
        BuddiesNeedRoom(b, ch.base, ch.size);
      }
    }
  }

  /** A page of a sound chunk is on a free block exactly when it was carved and is neither live nor lost. */
  lemma FreePages(ch: Chunk, lost: set<Block>, page: nat)
    requires Sound(ch, lost, -1)
    ensures Covered(FreeBlocks(ch.slots), page) <==>
            Covered(Carved(ch), page) && !LivePage(ch.slots, page) && !Covered(lost, page)
  {
    if i :| 0 <= i < |ch.slots| && ch.slots[i].Used() && Holds(ch.slots[i].AsBlock(), page) {
      assert Tracked(ch.slots, page);
      if ch.slots[i].Free() {
        assert ch.slots[i].AsBlock() in FreeBlocks(ch.slots);
      }
      if b :| b in FreeBlocks(ch.slots) && Holds(b, page) {
        var j :| 0 <= j < |ch.slots| && ch.slots[j].Free() && ch.slots[j].AsBlock() == b;
        assert i == j;
      }
    } else {
      assert !Tracked(ch.slots, page);
    }
  }

  /** History does not matter: the free blocks of a chunk are a function of which of its
      pages are live and which were lost. */
  lemma FreeBlocksDetermined(ch: Chunk, lost: set<Block>, ch': Chunk, lost': set<Block>)
    requires Sound(ch, lost, -1) && Sound(ch', lost', -1)
    requires ch.base == ch'.base && ch.size == ch'.size <= Pow2(MAX_CHUNK_ORDER) && |ch.slots| == |ch'.slots|
    requires forall page: nat :: LivePage(ch.slots, page) <==> LivePage(ch'.slots, page)
    requires forall page: nat :: Covered(lost, page) <==> Covered(lost', page)
    ensures FreeBlocks(ch.slots) == FreeBlocks(ch'.slots)
  {
    SmallChunkCoalesced(ch, lost);
    SmallChunkCoalesced(ch', lost');
    forall page: nat ensures Covered(FreeBlocks(ch.slots), page) <==> Covered(FreeBlocks(ch'.slots), page) {
      FreePages(ch, lost, page);
      FreePages(ch', lost', page);
    }
    UniqueDecomposition(FreeBlocks(ch.slots), FreeBlocks(ch'.slots));
  }

  /** Confluence: once nothing is live and nothing was lost, a chunk is back to exactly the blocks it was
      carved into, whatever was allocated and freed in between, provided the carve left no order-11 pair. */
  lemma Confluence(ch: Chunk)
    requires Sound(ch, {}, -1) && Coalesced(Carved(ch))
    requires forall i :: 0 <= i < |ch.slots| ==> !ch.slots[i].Live()
    ensures FreeBlocks(ch.slots) == Carved(ch)
  {
    var s := FreeBlocks(ch.slots);
    CarveDisjoint(ch);
    FreeTiling(ch);
    forall page: nat ensures Covered(s, page) <==> Covered(Carved(ch), page) {
      FreePages(ch, {}, page);
    }
    forall b | b in s ensures Buddy(b) !in s {
      if Buddy(b) in s {
        TopPairCovered(ch, b);
      }
    }
    UniqueDecomposition(s, Carved(ch));
  }

  lemma FreeTiling(ch: Chunk)
    requires Geometry(ch)
    ensures Tiling(FreeBlocks(ch.slots))
    ensures forall b :: b in FreeBlocks(ch.slots) ==> InBounds(ch, b)
  {
  }

  /** Two free buddies of a sound chunk are of the top order, and cover what the carve must have split. */
  lemma TopPairCovered(ch: Chunk, b: Block)
    requires Sound(ch, {}, -1) && b in FreeBlocks(ch.slots) && Buddy(b) in FreeBlocks(ch.slots)
    requires forall page: nat :: Covered(FreeBlocks(ch.slots), page) <==> Covered(Carved(ch), page)
    ensures !Coalesced(Carved(ch))
  {
    var s := FreeBlocks(ch.slots);
    FreeTiling(ch);
    BuddyFacts(b);
    var i :| 0 <= i < |ch.slots| && ch.slots[i].Free() && ch.slots[i].AsBlock() == b;
    var j :| 0 <= j < |ch.slots| && ch.slots[j].Free() && ch.slots[j].AsBlock() == Buddy(b);
    assert b.order >= MAX_CHUNK_ORDER;
    CarveDisjoint(ch);
    forall page: nat | Holds(Parent(b), page) ensures Covered(Carved(ch), page) {
      assert Holds(b, page) || Holds(Buddy(b), page);
      assert Covered(s, page);
    }
    FineCoverHasBuddies(Carved(ch), Parent(b));
  }

  /** The condition is exact: if the carve left an order-11 pair, freeing a block of the pair merges the two
      into an order-12 block, which the carve never makes. */
  lemma ConfluenceFails(ch: Chunk, b: Block) returns (after: Chunk)
    requires ch.base > 0 && FreshlyCarved(ch) && b in Carved(ch) && Buddy(b) in Carved(ch)
    ensures after.base == ch.base && after.size == ch.size && |after.slots| == |ch.slots|
    ensures Sound(after, {}, -1) && forall i :: 0 <= i < |after.slots| ==> !after.slots[i].Live()
    ensures FreeBlocks(after.slots) != Carved(after)
  {
    CarveSound(ch);
    CarveDisjoint(ch);
    var l, r := TopPairSlots(ch, b);
    MergeSound(ch, {}, l, l, r);
    after := ch.(slots := Merge(ch.slots, l, r));
    ReleaseHeld(after, {}, l);
    assert after.slots[l].AsBlock() in FreeBlocks(after.slots);
    SameCarve(ch, after.slots);
  }

  lemma TopPairSlots(ch: Chunk, b: Block) returns (l: nat, r: nat)
    requires ch.base > 0 && FreshlyCarved(ch) && b in Carved(ch) && Buddy(b) in Carved(ch)
    ensures Mergeable(ch.slots, l, r) && ch.slots[l].order == MAX_CHUNK_ORDER
  {
    hide Carve;
    hide Filled;
    hide Carved;
    hide Pow2;
    hide Aligned;
    hide Buddy;
    CarvedBlock(ch, b);
    Mutual(b);
    var i := CarvedSlot(ch, b);
    var j := CarvedSlot(ch, Buddy(b));
    if b.addr < Buddy(b).addr { l, r := i, j; } else { l, r := j, i; }
    if b.order < MAX_CHUNK_ORDER { CarvedBuddies(ch.base, ch.base + ch.size, |ch.slots|, b); }
  }

  lemma Mutual(b: Block)
    requires Aligned(b)
    ensures Buddy(Buddy(b)) == b && Buddy(b).addr != b.addr && Buddy(b).order == b.order
  {
    BuddyFacts(b);
  }

  lemma CarvedBlock(ch: Chunk, b: Block)
    requires b in Carved(ch)
    ensures Aligned(b) && b.order <= MAX_CHUNK_ORDER && ch.base <= b.addr && End(b) <= ch.base + ch.size
    ensures b in Carve(ch.base, ch.base + ch.size, |ch.slots|)
  {
    hide Carve;
    hide Pow2;
    hide Aligned;
    var c := Carve(ch.base, ch.base + ch.size, |ch.slots|);
    CarveInRange(ch.base, ch.base + ch.size, |ch.slots|);
    var i :| 0 <= i < |c| && c[i] == b;
  }

  lemma CarvedSlot(ch: Chunk, b: Block) returns (i: nat)
    requires ch.base > 0 && FreshlyCarved(ch) && b in Carved(ch)
    ensures i < |ch.slots| && ch.slots[i].Free() && ch.slots[i].AsBlock() == b
    ensures b in Carve(ch.base, ch.base + ch.size, |ch.slots|)
  {
    var c := Carve(ch.base, ch.base + ch.size, |ch.slots|);
    CarveInRange(ch.base, ch.base + ch.size, |ch.slots|);
    i :| 0 <= i < |c| && c[i] == b;
  }

  lemma CarveTiles(ch: Chunk)
    requires ch.size <= Pow2(MAX_CHUNK_ORDER)
    ensures Tiling(Carved(ch)) && Coalesced(Carved(ch))
  {
    hide Carve;
    hide Carved;
    hide Tiling;
    hide Pow2;
    hide Aligned;
    CarveDisjoint(ch);
    forall b | b in Carved(ch) ensures Buddy(b) !in Carved(ch) {
      if Buddy(b) in Carved(ch) {
        CarvedBlock(ch, b);
        CarvedBlock(ch, Buddy(b));
        BuddiesNeedRoom(b, ch.base, ch.size);
        CarvedBuddies(ch.base, ch.base + ch.size, |ch.slots|, b);
      }
    }
  }

  lemma CarveDisjoint(ch: Chunk)
    ensures Tiling(Carved(ch))
    ensures forall b :: b in Carved(ch) ==> b.order <= MAX_CHUNK_ORDER
    ensures forall b :: b in Carved(ch) ==> ch.base <= b.addr && End(b) <= ch.base + ch.size
  {
    hide Carve;
    hide Pow2;
    var c := Carve(ch.base, ch.base + ch.size, |ch.slots|);
    CarveInRange(ch.base, ch.base + ch.size, |ch.slots|);
    forall x, y | x in Carved(ch) && y in Carved(ch) && x != y ensures Disjoint(x, y) {
      var i :| 0 <= i < |c| && c[i] == x;
      var j :| 0 <= j < |c| && c[j] == y;
    }
  }

  lemma CarvedBuddies(cur: nat, end: nat, n: nat, b: Block)
    requires Aligned(b) && b.order < MAX_CHUNK_ORDER
    requires b in Carve(cur, end, n)
    ensures Buddy(b) !in Carve(cur, end, n)
  {
    var c := Carve(cur, end, n);
    BuddyFacts(b);
    var i :| 0 <= i < |c| && c[i] == b;
    if j :| 0 <= j < |c| && c[j] == Buddy(b) {
      if i < j {
        CarveMerged(cur, end, n, i, j);
      } else {
        CarveMerged(cur, end, n, j, i);
      }
    }
  }

  /** The table holds the blocks, all free, and nothing else. */
  ghost predicate Filled(slots: seq<Slot>, done: seq<Block>) {
    && |done| <= |slots|
    && (forall i :: 0 <= i < |done| ==> slots[i] == Slot(done[i].addr, done[i].order, false))
    && (forall i :: |done| <= i < |slots| ==> slots[i] == SPARE)
  }

  /** The table as `page_alloc_chunk_from_pmm` leaves it: the carved blocks, then spare slots. */
  ghost predicate FreshlyCarved(ch: Chunk) {
    Filled(ch.slots, Carve(ch.base, ch.base + ch.size, |ch.slots|))
  }

  lemma CarveSound(ch: Chunk)
    requires ch.base > 0 && FreshlyCarved(ch)
    ensures Sound(ch, {}, -1)
  {
    CarvedGeometry(ch);
    CarvedMerged(ch);
    forall page: nat ensures Covered(Carved(ch), page) <==> Tracked(ch.slots, page) {
      CarvedTracked(ch, page);
    }
  }

  lemma CarvedGeometry(ch: Chunk)
    requires ch.base > 0 && FreshlyCarved(ch)
    ensures Geometry(ch)
  {
    CarveInRange(ch.base, ch.base + ch.size, |ch.slots|);
  }

  lemma CarvedTracked(ch: Chunk, page: nat)
    requires ch.base > 0 && FreshlyCarved(ch)
    ensures Covered(Carved(ch), page) <==> Tracked(ch.slots, page)
  {
    var c := Carve(ch.base, ch.base + ch.size, |ch.slots|);
    if b :| b in Carved(ch) && Holds(b, page) {
      var i :| 0 <= i < |c| && c[i] == b;
      CarveInRange(ch.base, ch.base + ch.size, |ch.slots|);
      assert ch.slots[i].Used() && Holds(ch.slots[i].AsBlock(), page);
    }
    if i :| 0 <= i < |ch.slots| && ch.slots[i].Used() && Holds(ch.slots[i].AsBlock(), page) {
      assert c[i] in Carved(ch) && Holds(c[i], page);
    }
  }

  lemma CarvedMerged(ch: Chunk)
    requires ch.base > 0 && FreshlyCarved(ch)
    ensures Merged(ch.slots, -1)
  {
    hide Carve;
    hide Pow2;
    hide Aligned;
    var c := Carve(ch.base, ch.base + ch.size, |ch.slots|);
    CarveInRange(ch.base, ch.base + ch.size, |ch.slots|);
    forall i, j | 0 <= i < |ch.slots| && 0 <= j < |ch.slots| && ch.slots[i].Free() && ch.slots[j].Free() && ch.slots[i].order < MAX_CHUNK_ORDER
      ensures ch.slots[j].AsBlock() != Buddy(ch.slots[i].AsBlock())
    {
      assert c[i] in c && ch.slots[i].AsBlock() == c[i] && ch.slots[j].AsBlock() == c[j];
      CarvedBuddies(ch.base, ch.base + ch.size, |ch.slots|, c[i]);
    }
  }

  // ---------------------------------------------------------------- steps

  /** The block in slot `i` loses its right half, which goes to the spare slot `j`. */
  function Halved(s: Slot): Slot
    requires s.order > 0
  {
    s.(order := s.order - 1)
  }

  function RightHalf(s: Slot): Slot
    requires s.order > 0
  {
    Slot(s.addr + Pow2(s.order - 1), s.order - 1, false)
  }

  lemma HalvesOf(s: Slot)
    requires s.Used() && s.order > 0 && Aligned(s.AsBlock())
    ensures Aligned(Halved(s).AsBlock()) && Aligned(RightHalf(s).AsBlock())
    ensures Buddy(Halved(s).AsBlock()) == RightHalf(s).AsBlock() && Buddy(RightHalf(s).AsBlock()) == Halved(s).AsBlock()
    ensures Disjoint(Halved(s).AsBlock(), RightHalf(s).AsBlock())
    ensures forall page: nat :: Holds(s.AsBlock(), page) <==> Holds(Halved(s).AsBlock(), page) || Holds(RightHalf(s).AsBlock(), page)
    ensures forall c :: Disjoint(s.AsBlock(), c) ==> Disjoint(Halved(s).AsBlock(), c) && Disjoint(RightHalf(s).AsBlock(), c)
  {
    HalfFacts(s.AsBlock());
    BuddyFacts(Halved(s).AsBlock());
  }

  function Split(slots: seq<Slot>, i: nat, j: nat): (r: seq<Slot>)
    requires i < |slots| && j < |slots| && i != j && slots[i].order > 0
    ensures |r| == |slots|
  {
    slots[i := Halved(slots[i])][j := RightHalf(slots[i])]
  }

  /** A split that finds a spare slot keeps the chunk sound. */
  lemma SplitSound(ch: Chunk, lost: set<Block>, i: nat, j: nat)
    requires i < |ch.slots| && j < |ch.slots| && i != j && !ch.slots[j].Used()
    requires ch.slots[i].Free() && ch.slots[i].order > 0
    requires Sound(ch, lost, i)
    ensures Sound(ch.(slots := Split(ch.slots, i, j)), lost, i)
  {
    SplitGeometry(ch, i, j);
    SplitMerged(ch, i, j);
    forall page: nat ensures Tracked(Split(ch.slots, i, j), page) <==> Tracked(ch.slots, page) {
      SplitTracked(ch, i, j, page);
    }
    SameTracked(ch, lost, Split(ch.slots, i, j));
  }

  lemma SplitGeometry(ch: Chunk, i: nat, j: nat)
    requires i < |ch.slots| && j < |ch.slots| && i != j && !ch.slots[j].Used()
    requires ch.slots[i].Free() && ch.slots[i].order > 0 && Geometry(ch)
    ensures Geometry(ch.(slots := Split(ch.slots, i, j)))
  {
    assert InBounds(ch, ch.slots[i].AsBlock());
    HalvesOf(ch.slots[i]);
  }

  lemma SplitMerged(ch: Chunk, i: nat, j: nat)
    requires i < |ch.slots| && j < |ch.slots| && i != j && !ch.slots[j].Used()
    requires ch.slots[i].Free() && ch.slots[i].order > 0 && Geometry(ch) && Merged(ch.slots, i)
    ensures Merged(Split(ch.slots, i, j), i)
  {
    var t := Split(ch.slots, i, j);
    SplitGeometry(ch, i, j);
    HalvesOf(ch.slots[i]);
    forall a, b | 0 <= a < |t| && 0 <= b < |t| && a != i && b != i && t[a].Free() && t[b].Free() && t[a].order < MAX_CHUNK_ORDER
      ensures t[b].AsBlock() != Buddy(t[a].AsBlock())
    {
      assert InBounds(ch, t[a].AsBlock()) && InBounds(ch, t[b].AsBlock());
      BuddyFacts(t[a].AsBlock());
      assert Disjoint(t[i].AsBlock(), t[a].AsBlock()) && Disjoint(t[i].AsBlock(), t[b].AsBlock());
    }
  }

  lemma SplitTracked(ch: Chunk, i: nat, j: nat, page: nat)
    requires i < |ch.slots| && j < |ch.slots| && i != j && !ch.slots[j].Used()
    requires ch.slots[i].Free() && ch.slots[i].order > 0 && Geometry(ch)
    ensures Tracked(Split(ch.slots, i, j), page) <==> Tracked(ch.slots, page)
  {
    var t := Split(ch.slots, i, j);
    assert InBounds(ch, ch.slots[i].AsBlock());
    HalvesOf(ch.slots[i]);
    if k :| 0 <= k < |t| && t[k].Used() && Holds(t[k].AsBlock(), page) {
      assert Holds(ch.slots[if k == j then i else k].AsBlock(), page);
    }
    if k :| 0 <= k < |t| && ch.slots[k].Used() && Holds(ch.slots[k].AsBlock(), page) {
      if k == i {
        assert Holds(t[i].AsBlock(), page) || Holds(t[j].AsBlock(), page);
      } else {
        assert Holds(t[k].AsBlock(), page);
      }
    }
  }

  /** A split that finds no spare slot drops the right half: it joins the lost pages. */
  lemma SplitLoses(ch: Chunk, lost: set<Block>, i: nat)
    requires i < |ch.slots| && ch.slots[i].Free() && ch.slots[i].order > 0
    requires Sound(ch, lost, i)
    ensures Sound(ch.(slots := ch.slots[i := Halved(ch.slots[i])]), lost + {RightHalf(ch.slots[i]).AsBlock()}, i)
  {
    hide Geometry;
    hide Merged;
    hide Carved;
    var right := RightHalf(ch.slots[i]).AsBlock();
    var t := ch.slots[i := Halved(ch.slots[i])];
    SameCarve(ch, t);
    HalvedGeometry(ch, i);
    forall page: nat
      ensures Tracked(ch.slots, page) <==> Tracked(t, page) || Holds(right, page)
      ensures !(Tracked(t, page) && Holds(right, page))
      ensures Covered(lost + {right}, page) <==> Covered(lost, page) || Holds(right, page)
    {
      HalvedTracked(ch, i, page);
      assert right in lost + {right};
    }
  }

  lemma HalvedGeometry(ch: Chunk, i: nat)
    requires i < |ch.slots| && ch.slots[i].Free() && ch.slots[i].order > 0 && Geometry(ch) && Merged(ch.slots, i)
    ensures Geometry(ch.(slots := ch.slots[i := Halved(ch.slots[i])])) && Merged(ch.slots[i := Halved(ch.slots[i])], i)
  {
    assert InBounds(ch, ch.slots[i].AsBlock());
    HalvesOf(ch.slots[i]);
  }

  lemma HalvedTracked(ch: Chunk, i: nat, page: nat)
    requires i < |ch.slots| && ch.slots[i].Free() && ch.slots[i].order > 0 && Geometry(ch)
    ensures var t := ch.slots[i := Halved(ch.slots[i])];
            var right := RightHalf(ch.slots[i]).AsBlock();
            && (Tracked(ch.slots, page) <==> Tracked(t, page) || Holds(right, page))
            && !(Tracked(t, page) && Holds(right, page))
  {
    var s := ch.slots[i];
    var t := ch.slots[i := Halved(s)];
    assert InBounds(ch, s.AsBlock());
    HalvesOf(s);
    var right := RightHalf(s).AsBlock();
    if k :| 0 <= k < |t| && t[k].Used() && Holds(t[k].AsBlock(), page) {
      assert Holds(ch.slots[k].AsBlock(), page);
    }
    if k :| 0 <= k < |t| && ch.slots[k].Used() && Holds(ch.slots[k].AsBlock(), page) {
      assert k != i ==> Holds(t[k].AsBlock(), page);
      assert k == i ==> Holds(t[i].AsBlock(), page) || Holds(right, page);
    }
    assert Holds(right, page) ==> Holds(ch.slots[i].AsBlock(), page);
  }

  /** Slot `l` takes over its right buddy in slot `r`, which becomes spare. */
  function Merge(slots: seq<Slot>, l: nat, r: nat): (t: seq<Slot>)
    requires l < |slots| && r < |slots|
    ensures |t| == |slots|
  {
    slots[l := slots[l].(order := slots[l].order + 1)][r := SPARE]
  }

  /** Slots `l` and `r` hold free blocks of one order below the maximum, `r` being the buddy to the right of `l`. */
  ghost predicate Mergeable(slots: seq<Slot>, l: nat, r: nat) {
    && l < |slots| && r < |slots| && slots[l].Free() && slots[r].Free()
    && slots[l].order < MAX_ORDER && slots[r].AsBlock() == Buddy(slots[l].AsBlock()) && slots[l].addr < slots[r].addr
  }

  lemma MergedBlock(s: Slot, r: Slot)
    requires s.Used() && Aligned(s.AsBlock()) && r.AsBlock() == Buddy(s.AsBlock()) && s.addr < r.addr
    ensures var p := Block(s.addr, s.order + 1);
            && Aligned(p) && End(p) == End(r.AsBlock()) && End(s.AsBlock()) == r.addr
            && (forall c :: Disjoint(s.AsBlock(), c) && Disjoint(r.AsBlock(), c) ==> Disjoint(p, c))
            && (forall page: nat :: Holds(p, page) <==> Holds(s.AsBlock(), page) || Holds(r.AsBlock(), page))
  {
    BuddyFacts(s.AsBlock());
    assert Parent(s.AsBlock()) == Block(s.addr, s.order + 1);
  }

  lemma MergeGeometry(ch: Chunk, l: nat, r: nat)
    requires Geometry(ch) && Mergeable(ch.slots, l, r)
    ensures Geometry(ch.(slots := Merge(ch.slots, l, r)))
  {
    hide Pow2;
    hide Aligned;
    hide Buddy;
    assert InBounds(ch, ch.slots[l].AsBlock()) && InBounds(ch, ch.slots[r].AsBlock());
    MergedBlock(ch.slots[l], ch.slots[r]);
    var t := Merge(ch.slots, l, r);
    assert forall k :: 0 <= k < |t| && t[k].Used() && k != l ==> k != r && t[k] == ch.slots[k];
    forall k | 0 <= k < |t| && t[k].Used() && k != l ensures Disjoint(t[l].AsBlock(), t[k].AsBlock()) {}
  }

  lemma MergeTracked(ch: Chunk, l: nat, r: nat, page: nat)
    requires Geometry(ch) && Mergeable(ch.slots, l, r)
    ensures Tracked(Merge(ch.slots, l, r), page) <==> Tracked(ch.slots, page)
  {
    assert InBounds(ch, ch.slots[l].AsBlock());
    MergedBlock(ch.slots[l], ch.slots[r]);
    MergeTracks(ch.slots, l, r, page);
  }

  lemma MergeTracks(slots: seq<Slot>, l: nat, r: nat, page: nat)
    requires l < |slots| && r < |slots| && l != r && slots[l].Used() && slots[r].Used() && Merge(slots, l, r)[l].Used()
    requires Holds(Merge(slots, l, r)[l].AsBlock(), page) <==> Holds(slots[l].AsBlock(), page) || Holds(slots[r].AsBlock(), page)
    ensures Tracked(Merge(slots, l, r), page) <==> Tracked(slots, page)
  {
    hide Holds;
    var t := Merge(slots, l, r);
    if k :| 0 <= k < |t| && t[k].Used() && Holds(t[k].AsBlock(), page) {
      if k != l { assert t[k] == slots[k]; }
    }
    if k :| 0 <= k < |slots| && slots[k].Used() && Holds(slots[k].AsBlock(), page) {
      var j := if k == r then l else k;
      assert j != l ==> t[j] == slots[j];
      assert Holds(t[j].AsBlock(), page);
    }
  }

  /** Merging the held block with its free buddy keeps the chunk sound; the merged block is held. */
  lemma MergeSound(ch: Chunk, lost: set<Block>, held: nat, l: nat, r: nat)
    requires Mergeable(ch.slots, l, r) && (held == l || held == r)
    requires Sound(ch, lost, held)
    ensures Sound(ch.(slots := Merge(ch.slots, l, r)), lost, l)
  {
    MergeGeometry(ch, l, r);
    var t := Merge(ch.slots, l, r);
    assert forall k :: 0 <= k < |t| && t[k].Used() && k != l ==> k != r && t[k] == ch.slots[k];
    forall page: nat ensures Tracked(t, page) <==> Tracked(ch.slots, page) {
      MergeTracked(ch, l, r, page);
    }
    SameTracked(ch, lost, t);
  }

  /** Once the held block has no free buddy (or is of an order that never merges), it can be released. */
  lemma ReleaseHeld(ch: Chunk, lost: set<Block>, held: nat)
    requires held < |ch.slots| && Sound(ch, lost, held) && ch.slots[held].Free()
    requires ch.slots[held].order < MAX_ORDER ==>
               forall j :: 0 <= j < |ch.slots| && ch.slots[j].Free() ==> ch.slots[j].AsBlock() != Buddy(ch.slots[held].AsBlock())
    ensures Sound(ch, lost, -1)
  {
    forall i, j | 0 <= i < |ch.slots| && 0 <= j < |ch.slots| && ch.slots[i].Free() && ch.slots[j].Free() && ch.slots[i].order < MAX_CHUNK_ORDER
      ensures ch.slots[j].AsBlock() != Buddy(ch.slots[i].AsBlock())
    {
      assert InBounds(ch, ch.slots[i].AsBlock());
      BuddyFacts(ch.slots[i].AsBlock());
    }
  }

  lemma SoundHeld(ch: Chunk, lost: set<Block>, held: nat)
    requires Sound(ch, lost, -1)
    ensures Sound(ch, lost, held)
  {
  }

  lemma SameCarve(ch: Chunk, t: seq<Slot>)
    requires |t| == |ch.slots|
    ensures Carved(ch.(slots := t)) == Carved(ch)
  {
  }

  /** Tracking the same pages, a chunk conserves what it conserved before. */
  lemma SameTracked(ch: Chunk, lost: set<Block>, t: seq<Slot>)
    requires Conserved(ch, lost) && |t| == |ch.slots|
    requires forall page: nat :: Tracked(t, page) <==> Tracked(ch.slots, page)
    ensures Conserved(ch.(slots := t), lost)
  {
    assert Carved(ch.(slots := t)) == Carved(ch);
  }

  lemma FlagTracked(slots: seq<Slot>, i: nat, inUse: bool)
    requires i < |slots|
    ensures forall page: nat :: Tracked(slots[i := slots[i].(inUse := inUse)], page) <==> Tracked(slots, page)
  {
    var t := slots[i := slots[i].(inUse := inUse)];
    forall page: nat ensures Tracked(t, page) <==> Tracked(slots, page) {
      if k :| 0 <= k < |t| && t[k].Used() && Holds(t[k].AsBlock(), page) {
        assert Holds(slots[k].AsBlock(), page);
      }
      if k :| 0 <= k < |t| && slots[k].Used() && Holds(slots[k].AsBlock(), page) {
        assert Holds(t[k].AsBlock(), page);
      }
    }
  }

  /** Marking the held block allocated, as `page_alloc` does last. */
  lemma TakeSound(ch: Chunk, lost: set<Block>, i: nat)
    requires i < |ch.slots| && ch.slots[i].Free() && ch.slots[i].order <= MAX_CHUNK_ORDER && Sound(ch, lost, i)
    ensures Sound(ch.(slots := ch.slots[i := ch.slots[i].(inUse := true)]), lost, -1)
  {
    FlagTracked(ch.slots, i, true);
    SameTracked(ch, lost, ch.slots[i := ch.slots[i].(inUse := true)]);
  }

  /** Clearing the flag of an allocated block, as `page_free` does first; the block is then held. */
  lemma ReturnSound(ch: Chunk, lost: set<Block>, i: nat)
    requires i < |ch.slots| && ch.slots[i].Live() && Sound(ch, lost, -1)
    ensures Sound(ch.(slots := ch.slots[i := ch.slots[i].(inUse := false)]), lost, i)
  {
    FlagTracked(ch.slots, i, false);
    SameTracked(ch, lost, ch.slots[i := ch.slots[i].(inUse := false)]);
  }
}
