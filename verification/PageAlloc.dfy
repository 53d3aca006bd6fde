/** The buddy page allocator: `page_alloc`, `page_free` and what they are built from.

    Pages are page frame numbers; `page_free` also checks the byte address it is given.
 */
module PageAlloc {
  import opened Bits
  import opened Dyadic
  import opened PageChunk
  import opened FreeLists
  import opened PageState
  import P = Pmm

  const SLOTS_PER_CHUNK := 126
  const MIN_CHUNK_PAGES := 512
  const MEDIUM_CHUNK_PAGES := 1024
  const LARGE_ORDER := 10
  const MEDIUM_ORDER := 7
  const MIN_CHUNKS_TO_KEEP := 2

  /** The pages asked of the PMM to serve an order that the free lists cannot. */
  function ChunkPages(order: nat): nat {
    var needed := Pow2(order) + 1;
    var wanted := if order >= LARGE_ORDER then needed
                  else if order >= MEDIUM_ORDER then MEDIUM_CHUNK_PAGES
                  else MIN_CHUNK_PAGES;
    if wanted < needed then needed else wanted
  }

  /** 2 MB up to order 6, 4 MB up to order 9, then the block and a page of metadata. */
  lemma ChunkSizes(order: nat)
    requires order <= MAX_CHUNK_ORDER
    ensures ChunkPages(order) == if order <= 6 then 512 else if order <= 9 then 1024 else Pow2(order) + 1
    ensures ChunkPages(order) > MIN_CHUNK_PAGES >= Pow2(order) + 1 <==> 7 <= order <= 8
    ensures MIN_CHUNK_PAGES <= ChunkPages(order) <= Pow2(MAX_CHUNK_ORDER) + 1
  {
    assert Pow2(6) == 64 && Pow2(8) == 256 && Pow2(9) == 512 && Pow2(10) == 1024 && Pow2(11) == 2048;
    Pow2Monotone(order, MAX_CHUNK_ORDER);
    if order <= 6 { Pow2Monotone(order, 6); } else if order <= 8 { Pow2Monotone(order, 8); } else { Pow2Monotone(9, order); }
    if order >= 10 { Pow2Monotone(10, order); }
  }

  /** For orders 0 to 9 any chunk the sizing rule obtains, wherever it lies, carves a block that is
      large enough; so does the 2 MB fallback wherever the code tries it. */
  lemma ChunkServes(order: nat, base: nat, pages: nat)
    requires order <= 9
    requires pages == ChunkPages(order) || (pages == MIN_CHUNK_PAGES && MIN_CHUNK_PAGES >= Pow2(order) + 1)
    ensures var c := Carve(base, base + pages - 1, SLOTS_PER_CHUNK);
            c != [] && order <= c[0].order <= MAX_CHUNK_ORDER
  {
    assert Pow2(6) == 64 && Pow2(8) == 256 && Pow2(9) == 512;
    if order <= 6 { Pow2Monotone(order, 6); }
    if order <= 8 { Pow2Monotone(order, 8); }
    CarveReaches(base, pages - 1, SLOTS_PER_CHUNK, order);
  }

  /** Every page of every chunk, metadata included, and of every block taken straight from the PMM
      is managed by the PMM and not free there; the two kinds do not overlap. */
  ghost predicate Backed(chunks: Chunks, direct: set<Block>, regions: seq<P.Region>) {
    && !P.FreeIn(regions, 0)
    && (forall c, page: nat :: c in chunks && c - 1 <= page < c + chunks[c].size ==> P.ManagedIn(regions, page) && !P.FreeIn(regions, page))
    && (forall b, page: nat :: b in direct && Holds(b, page) ==> P.ManagedIn(regions, page) && !P.FreeIn(regions, page))
    && (forall b, c :: b in direct && c in chunks ==> End(b) < c || c + chunks[c].size <= b.addr)
    && (forall b, d :: b in direct && d in direct && b != d ==> Disjoint(b, d))
    && (forall b :: b in direct ==> b.order >= MAX_ORDER && b.addr > 0)
    && (forall c :: c in chunks ==> c > 1)
  }

  /** The allocator together with what it took straight from the PMM and the PMM's regions. */
  datatype Snapshot = Snapshot(s: State, direct: set<Block>, regions: seq<P.Region>) {
    ghost predicate Live(b: Block) { IsLive(s.chunks, b) || b in direct }
    ghost predicate Servable(order: nat) { exists k :: order <= k <= 11 && k < |s.lists| && s.lists[k] != [] }
    /** List `k` is the first from `order` up that has a block. */
    ghost predicate FirstList(k: nat, order: nat) {
      order <= k <= 11 && k < |s.lists| && s.lists[k] != [] && forall j :: order <= j < k ==> s.lists[j] == []
    }
    /** The PMM has a run for the chunk the order calls for, or, for orders 7 and 8, at least 2 MB. */
    ghost predicate Obtainable(order: nat) {
      !P.NoFit(regions, ChunkPages(order)) || (7 <= order <= 8 && !P.NoFit(regions, MIN_CHUNK_PAGES))
    }
    /** The size of the chunk taken: 2 MB only where the PMM has no run of the size the order calls for. */
    ghost function NextChunk(order: nat): nat {
      if P.NoFit(regions, ChunkPages(order)) then MIN_CHUNK_PAGES else ChunkPages(order)
    }
    ghost predicate SmallChunks() { forall c :: c in s.chunks ==> s.chunks[c].size <= Pow2(MAX_CHUNK_ORDER) }
  }

  /** The first fit of `pages` pages left the PMM and became a freshly carved chunk at the head of the list. */
  ghost predicate Obtains(a: Snapshot, b: Snapshot, pages: nat) {
    b.direct == a.direct && exists meta: nat :: P.Took(a.regions, b.regions, pages, meta) && NewChunk(a.s, b.s, meta + 1, pages)
  }

  /** From each list of the orders `from` up to `to` one block of the chunk was taken; the others are as before. */
  ghost predicate BuddiesTaken(before: seq<seq<Ref>>, after: seq<seq<Ref>>, c: nat, from: nat, to: nat) {
    && |after| == |before|
    && forall j :: 0 <= j < |before| ==> if from <= j < to then OneTaken(before[j], after[j], c) else after[j] == before[j]
  }

  ghost predicate OneTaken(before: seq<Ref>, after: seq<Ref>, c: nat) {
    exists i :: 0 <= i < |before| && before[i].chunk == c && after == Without(before, i)
  }

  lemma BuddiesMore(a: seq<seq<Ref>>, m: seq<seq<Ref>>, b: seq<seq<Ref>>, c: nat, from: nat, k: nat)
    requires BuddiesTaken(a, m, c, from, k) && from <= k && BuddiesTaken(m, b, c, k, k + 1)
    ensures BuddiesTaken(a, b, c, from, k + 1)
  {
    hide OneTaken;
  }

  /** A block of the order was merged with its free buddies, which left their lists, and the result, in slot `slot`
      of the chunk, went to the head of list `top`. */
  ghost predicate Rejoined(before: seq<seq<Ref>>, after: seq<seq<Ref>>, c: nat, order: nat, top: nat, slot: nat) {
    && order <= top < |before| && |after| == |before| && after[top] == [Ref(c, slot)] + before[top]
    && BuddiesTaken(before, after[top := before[top]], c, order, top)
  }

  /** Chunk `c` has one allocated block less, the others as many as before. */
  ghost predicate OneFewer(a: Chunks, b: Chunks, c: nat) {
    b.Keys == a.Keys && forall d :: d in a ==> b[d].allocatedBlocks == a[d].allocatedBlocks - if d == c then 1 else 0
  }

  ghost predicate SameCounters(a: Chunks, b: Chunks) {
    b.Keys == a.Keys && forall d :: d in a ==> b[d].allocatedBlocks == a[d].allocatedBlocks
  }

  lemma IdleOneMore(a: Chunks, b: Chunks, c: nat)
    requires OneFewer(a, b, c) && c in a && a[c].allocatedBlocks == 1
    ensures Idle(b) == Idle(a) + {c}
  {
  }

  /** The chunks without allocated blocks. */
  ghost function Idle(chunks: Chunks): set<nat> {
    set c | c in chunks && chunks[c].allocatedBlocks == 0
  }

  /** The list without the idle chunks. */
  ghost function Busy(list: seq<nat>, idle: set<nat>): seq<nat> {
    if list == [] then []
    else Busy(list[..|list| - 1], idle) + if list[|list| - 1] in idle then [] else [list[|list| - 1]]
  }

  /** Of the first `n` chunks the idle ones left. */
  ghost predicate Tidied(before: seq<nat>, idle: set<nat>, after: seq<nat>, n: nat) {
    n <= |before| && after == Busy(before[..n], idle) + before[n..]
  }

  /** Idle chunks left the list from its head on, until two chunks remained or no idle one was left. */
  ghost predicate Tidy(before: seq<nat>, idle: set<nat>, after: seq<nat>) {
    exists n: nat :: Tidied(before, idle, after, n) && (n == |before| || |after| <= 2)
  }

  lemma IdleLess(chunks: Chunks, idle: set<nat>, c: nat)
    requires Idle(chunks) == idle * chunks.Keys
    ensures Idle(chunks - {c}) == idle * (chunks - {c}).Keys
  {
    forall d ensures d in Idle(chunks - {c}) <==> d in idle * (chunks - {c}).Keys {
      if d in chunks { IdleIs(chunks, idle, d); }
    }
  }

  lemma IdleStart(chunks: Chunks)
    ensures Idle(chunks) == Idle(chunks) * chunks.Keys
  {
  }

  lemma IdleIs(chunks: Chunks, idle: set<nat>, c: nat)
    requires Idle(chunks) == idle * chunks.Keys && c in chunks
    ensures c in idle <==> chunks[c].allocatedBlocks == 0
  {
    assert c in Idle(chunks) <==> c in idle * chunks.Keys;
  }

  lemma BusyNext(list: seq<nat>, idle: set<nat>, n: nat)
    requires n < |list|
    ensures Busy(list[..n + 1], idle) == Busy(list[..n], idle) + if list[n] in idle then [] else [list[n]]
  {
    assert list[..n + 1][..n] == list[..n];
  }

  /** Position `i` of the list is where the scan, past `n` chunks, stands. */
  ghost predicate ScanAt(before: seq<nat>, idle: set<nat>, list: seq<nat>, n: nat, i: nat) {
    Tidied(before, idle, list, n) && (|list| > 2 ==> i == |Busy(before[..n], idle)|) && i <= |list|
  }

  lemma ScanNext(before: seq<nat>, idle: set<nat>, list: seq<nat>, n: nat, i: nat)
    requires ScanAt(before, idle, list, n, i) && i < |list|
    ensures |list| > 2 ==> n < |before| && list[i] == before[n]
    ensures |list| > 2 && list[i] in idle ==> ScanAt(before, idle, Without(list, i), n + 1, i)
    ensures |list| > 2 && list[i] !in idle ==> ScanAt(before, idle, list, n + 1, i + 1)
    ensures |list| <= 2 ==> ScanAt(before, idle, list, n, i + 1)
  {
    if |list| > 2 {
      var b := Busy(before[..n], idle);
      assert n < |before| && list[i] == before[n];
      BusyNext(before, idle, n);
      assert before[n..] == [before[n]] + before[n + 1..];
      if list[i] in idle {
        assert list[..i] == b && list[i + 1..] == before[n + 1..];
      } else {
        assert list == (b + [before[n]]) + before[n + 1..];
      }
    }
  }

  lemma ScanEnd(before: seq<nat>, idle: set<nat>, list: seq<nat>, n: nat)
    requires ScanAt(before, idle, list, n, |list|)
    ensures Tidy(before, idle, list)
  {
    if |list| > 2 { assert n == |before|; }
  }

  lemma NothingTidied(list: seq<nat>, idle: set<nat>)
    ensures ScanAt(list, idle, list, 0, 0) && (|list| <= 2 ==> Tidy(list, idle, list))
  {
    assert Busy(list[..0], idle) == [] && [] + list[0..] == list;
    assert Tidied(list, idle, list, 0);
  }

  /** The right half of order `j` of the block at `addr` was put in a slot of the chunk and at the head of its list. */
  ghost predicate HalfLinked(before: seq<Ref>, after: seq<Ref>, chunks: Chunks, c: nat, addr: nat, j: nat) {
    && after != [] && after[1..] == before && after[0].chunk == c
    && Known(chunks, after[0]) && At(chunks, after[0]) == Slot(addr + Pow2(j), j, false)
  }

  /** Halving the block at `r` from one order down to another left its right halves, from the largest on and as many
      as the chunk had spare slots for, at the heads of their lists; the other lists are as before. */
  ghost predicate Halves(a: State, b: State, r: Ref, from: nat, to: nat) {
    && |b.lists| == |a.lists| && Known(b.chunks, r) && r.chunk in a.chunks
    && forall j :: 0 <= j < |a.lists| ==>
         if to <= j < from && from - j <= Spares(a.chunks, r.chunk)
         then HalfLinked(a.lists[j], b.lists[j], b.chunks, r.chunk, At(b.chunks, r).addr, j)
         else b.lists[j] == a.lists[j]
  }

  /** Slots in use other than `r` are as before. */
  ghost predicate KeepsUsed(a: Chunks, b: Chunks, r: Ref) {
    forall q :: Known(a, q) && At(a, q).Used() && q != r ==> Known(b, q) && At(b, q) == At(a, q)
  }

  lemma HalvesMore(a: State, m: State, b: State, r: Ref, from: nat, k: nat)
    requires Halves(a, m, r, from, k) && 0 < k <= from <= |a.lists| && Halves(m, b, r, k, k - 1) && KeepsUsed(m.chunks, b.chunks, r)
    requires At(b.chunks, r).addr == At(m.chunks, r).addr > 0
    requires Spares(m.chunks, r.chunk) == if Spares(a.chunks, r.chunk) >= from - k then Spares(a.chunks, r.chunk) - (from - k) else 0
    ensures Halves(a, b, r, from, k - 1)
  {
    hide Spares;
    forall j | 0 <= j < |a.lists|
      ensures if k - 1 <= j < from && from - j <= Spares(a.chunks, r.chunk)
              then HalfLinked(a.lists[j], b.lists[j], b.chunks, r.chunk, At(b.chunks, r).addr, j) else b.lists[j] == a.lists[j]
    {
      if k <= j < from && from - j <= Spares(a.chunks, r.chunk) {
        assert HalfLinked(a.lists[j], m.lists[j], m.chunks, r.chunk, At(m.chunks, r).addr, j);
      }
    }
  }

  lemma HalvesNone(a: State, r: Ref, k: nat)
    requires Known(a.chunks, r)
    ensures Halves(a, a, r, k, k)
  {
    hide Spares;
  }

  lemma HalvesSplit(s: State, r: Ref, j: nat)
    requires Known(s.chunks, r) && Known(s.chunks, Ref(r.chunk, j)) && r.slot != j && 0 < At(s.chunks, r).order <= |s.lists|
    requires !At(s.chunks, Ref(r.chunk, j)).Used() && Spares(s.chunks, r.chunk) > 0
    ensures var t, k := AfterSplit(s, r, j), At(s.chunks, r).order; Halves(s, t, r, k, k - 1) && KeepsUsed(s.chunks, t.chunks, r)
  {
    hide Spares;
    hide Pow2;
  }

  lemma HalvesLoss(s: State, r: Ref)
    requires Known(s.chunks, r) && r.chunk in s.lost && 0 < At(s.chunks, r).order && Spares(s.chunks, r.chunk) == 0
    ensures var t, k := AfterLoss(s, r), At(s.chunks, r).order; Halves(s, t, r, k, k - 1) && KeepsUsed(s.chunks, t.chunks, r)
  {
    hide Spares;
    hide Pow2;
  }

  lemma HalvesSame(a: State, b: State, r: Ref, from: nat, to: nat, b': State)
    requires Halves(a, b, r, from, to) && b'.lists == b.lists && KeepsUsed(b.chunks, b'.chunks, r)
    requires Known(b'.chunks, r) && At(b'.chunks, r).addr == At(b.chunks, r).addr > 0
    ensures Halves(a, b', r, from, to)
  {
    hide Spares;
    forall j | 0 <= j < |a.lists| && to <= j < from && from - j <= Spares(a.chunks, r.chunk)
      ensures HalfLinked(a.lists[j], b'.lists[j], b'.chunks, r.chunk, At(b'.chunks, r).addr, j)
    {
      assert HalfLinked(a.lists[j], b.lists[j], b.chunks, r.chunk, At(b.chunks, r).addr, j);
    }
  }

  /** The order is served from the lists as they are: `r` is the start of the head of the first list from `order`
      up that has a block, its right halves go to their lists, and pages are lost exactly when the chunk has fewer
      spare slots than the block must be split. */
  ghost predicate Serves(a: Snapshot, b: Snapshot, order: nat, r: nat) {
    && b.s.list == a.s.list && b.regions == a.regions && b.direct == a.direct
    && forall k: nat :: a.FirstList(k, order) ==>
         var head := a.s.lists[k][0];
         && Known(a.s.chunks, head) && r == At(a.s.chunks, head).addr
         && (Lossless(a.s, b.s) <==> Spares(a.s.chunks, head.chunk) >= k - order)
         && Halves(AfterUnlink(a.s, k, 0), b.s, head, k, order)
  }

  /** Chunks were added one after the other, each because the one before did not serve the order, until the
      lists could serve it or nothing more could be obtained. */
  ghost predicate Runs(a: Snapshot, steps: seq<Snapshot>, b: Snapshot, order: nat, r: nat) {
    && steps != [] && steps[0] == a
    && (forall i :: 0 <= i < |steps| - 1 ==> Refills(steps[i], steps[i + 1], order))
    && var m := steps[|steps| - 1];
       if r == 0 then b == m && !m.Servable(order) && !m.Obtainable(order) else m.Servable(order) && Serves(m, b, order, r)
  }

  ghost predicate Reaches(a: Snapshot, b: Snapshot, order: nat, r: nat) {
    exists steps :: Runs(a, steps, b, order, r)
  }

  /** What `page_alloc(order)` returning `r` does.
      - Success makes exactly the block at `r` live, which was not live before; failure changes no live block.
      - Existing chunks stay; chunks of at most 8 MB stay the rule.
      - A request the free lists can serve succeeds without touching the chunk list or the PMM.
      - Otherwise chunks are added as `Runs` says. Up to order 9 at most one is added, and failure leaves
        everything as it was.
      - From order 12 on the block is the PMM's first fit, and the buddy state is left alone. */
  ghost predicate Allocates(a: Snapshot, b: Snapshot, order: nat, r: nat) {
    && (r == 0 ==> forall x :: b.Live(x) <==> a.Live(x))
    && (r != 0 ==> !a.Live(Block(r, order)) && forall x :: b.Live(x) <==> a.Live(x) || x == Block(r, order))
    && (r != 0 && order < 12 ==> Aligned(Block(r, order)))
    && Extends(a.s, b.s) && (a.SmallChunks() ==> b.SmallChunks())
    && (order < 12 && a.Servable(order) ==> r != 0 && Serves(a, b, order, r))
    && (order < 12 ==> Reaches(a, b, order, r))
    && (order <= 9 ==> |b.s.list| <= |a.s.list| + 1)
    && (order <= 9 && r == 0 ==> b == a)
    && (order >= 12 ==> TakesRun(a, b, order, r))
  }

  /** A block of order 12 or more is the PMM's first fit, if there is one. */
  ghost predicate TakesRun(a: Snapshot, b: Snapshot, order: nat, r: nat) {
    && b.s == a.s && (r == 0 <==> P.NoFit(a.regions, Pow2(order)))
    && (r == 0 ==> b == a)
    && (r != 0 ==> P.Took(a.regions, b.regions, Pow2(order), r) && b.direct == a.direct + {Block(r, order)})
  }

  /** A new chunk was added for the order; nothing else changed, and up to order 9 it can now be served. */
  ghost predicate Refills(a: Snapshot, b: Snapshot, order: nat) {
    && Extends(a.s, b.s) && |b.s.list| == |a.s.list| + 1
    && b.direct == a.direct && (forall x :: IsLive(b.s.chunks, x) <==> IsLive(a.s.chunks, x))
    && (a.SmallChunks() ==> b.SmallChunks())
    && !a.Servable(order) && (order <= 9 ==> b.Servable(order))
    && a.Obtainable(order) && Obtains(a, b, a.NextChunk(order))
  }

  lemma ServedAtOnce(a: Snapshot, b: Snapshot, order: nat, r: nat)
    requires a.Servable(order) && Serves(a, b, order, r) && r != 0
    ensures Reaches(a, b, order, r)
  {
    hide Serves;
    assert Runs(a, [a], b, order, r);
  }

  lemma NothingAllocated(a: Snapshot, order: nat)
    requires order < MAX_ORDER && !a.Servable(order) && !a.Obtainable(order)
    ensures Allocates(a, a, order, 0)
  {
    assert Runs(a, [a], a, order, 0);
  }

  lemma RefillThenReach(a: Snapshot, m: Snapshot, b: Snapshot, order: nat, r: nat)
    requires Refills(a, m, order) && Reaches(m, b, order, r)
    ensures Reaches(a, b, order, r)
  {
    hide Refills;
    hide Serves;
    var steps :| Runs(m, steps, b, order, r);
    var all := [a] + steps;
    forall i | 0 <= i < |all| - 1 ensures Refills(all[i], all[i + 1], order) {
      if i > 0 { assert Refills(steps[i - 1], steps[i], order); }
    }
    assert Runs(a, all, b, order, r);
  }

  lemma RefillThenAllocate(a: Snapshot, m: Snapshot, b: Snapshot, order: nat, r: nat)
    requires Refills(a, m, order) && Allocates(m, b, order, r) && order < MAX_ORDER
    ensures Allocates(a, b, order, r)
  {
    hide IsLive;
    hide P.NoFit;
    hide Reaches;
    hide Obtains;
    RefillThenReach(a, m, b, order, r);
    ExtendsTransitive(a.s, m.s, b.s);
    assert forall x :: m.Live(x) <==> a.Live(x);
  }

  class PageAllocator {
    const pmm: P.PhysicalMemory
    var freeLists: seq<seq<Ref>>
    var chunkList: seq<nat>
    var chunks: Chunks
    var totalPages: int
    var freePages: int
    ghost var lost: map<nat, set<Block>>
    ghost var lostPages: nat
    ghost var direct: set<Block>

    ghost function Now(): State
      reads this
    {
      State(freeLists, chunkList, chunks, totalPages, freePages, lost, lostPages)
    }

    ghost function All(): Snapshot
      reads this, pmm
    {
      Snapshot(Now(), direct, pmm.regions)
    }

    ghost predicate Structured()
      reads this, pmm
    {
      Structure(Now(), Nothing) && pmm.Valid()
    }

    ghost predicate Valid()
      reads this, pmm
    {
      Structured() && Good(Now(), Nothing) && Backed(chunks, direct, pmm.regions)
    }

    ghost predicate Live(b: Block)
      reads this
    {
      IsLive(chunks, b) || b in direct
    }

    /** Two live allocations never overlap, whether buddy blocks or taken straight from the PMM. */
    lemma LiveNeverOverlap(b: Block, c: Block)
      requires Valid() && Live(b) && Live(c) && b != c
      ensures Disjoint(b, c)
    {
      hide Linked;
      if IsLive(chunks, b) && IsLive(chunks, c) {
        LiveDisjoint(Now(), Nothing, b, c);
      } else if IsLive(chunks, b) {
        LiveInsideChunk(b);
      } else if IsLive(chunks, c) {
        LiveInsideChunk(c);
      }
    }

    lemma LiveInsideChunk(b: Block)
      requires Valid() && IsLive(chunks, b)
      ensures exists c :: c in chunks && c <= b.addr && End(b) <= c + chunks[c].size
    {
      var r :| Known(chunks, r) && At(chunks, r).Live() && At(chunks, r).AsBlock() == b;
      assert InBounds(chunks[r.chunk], b);
    }

    /** Confluence of the allocator: whenever a chunk has no allocated block left and lost nothing to a
        split, its free blocks are exactly those it was carved into (up to 8 MB, as all chunks that
        `PageAlloc` requests are). */
    lemma ChunkRestored(c: nat)
      requires Valid() && c in chunks && chunks[c].allocatedBlocks == 0 && lost[c] == {} && chunks[c].size <= Pow2(MAX_CHUNK_ORDER)
      ensures FreeBlocks(chunks[c].slots) == Carved(chunks[c])
    {
      hide Linked;
      SumLive(chunks[c].slots);
      CarveTiles(chunks[c]);
      Confluence(chunks[c]);
    }

    constructor (memory: P.PhysicalMemory)
      requires memory.Valid() && !memory.IsFree(0)
      ensures Valid() && All().SmallChunks() && pmm == memory && chunks == map[] && (forall b :: !Live(b)) && lostPages == 0
    {
      pmm := memory;
      freeLists := seq(MAX_ORDER + 1, _ => []);
      chunkList, chunks, totalPages, freePages := [], map[], 0, 0;
      lost, lostPages, direct := map[], 0, {};
    }

    /** Start-up: a first chunk of 2 MB is taken if the PMM has the pages. */
    method Boot()
      requires Valid() && All().SmallChunks() && chunkList == []
      modifies this, pmm
      ensures Valid() && All().SmallChunks() && lostPages == old(lostPages) && direct == old(direct)
      ensures |chunkList| == if P.NoFit(old(pmm.regions), MIN_CHUNK_PAGES) then 0 else 1
      ensures chunkList != [] ==> Obtains(old(All()), All(), MIN_CHUNK_PAGES)
      ensures forall b :: Live(b) <==> old(Live(b))
    {
      hide Structure;
      hide Good;
      hide Backed;
      hide IsLive;
      assert Pow2(11) == 2048;
      var ok := ChunkFromPmm(MIN_CHUNK_PAGES);
    }

    // -------------------------------------------------------------- lookups

    /** Walk the chunk list for the chunk whose usable pages contain `page`. */
    method FindChunk(page: nat) returns (found: bool, c: nat)
      requires Structure(Now(), Nothing) || exists r :: Structure(Now(), One(r))
      ensures found ==> c in chunks && chunks[c].Has(page)
      ensures !found ==> forall d :: d in chunks ==> !chunks[d].Has(page)
    {
      hide Linked;
      hide Sum;
      hide Total;
      found, c := false, 0;
      for i := 0 to |chunkList|
        invariant forall j :: 0 <= j < i ==> !chunks[chunkList[j]].Has(page)
      {
        if chunks[chunkList[i]].Has(page) { return true, chunkList[i]; }
      }
    }

    /** First slot of the chunk with the given address, or the number of slots. */
    method FindSlot(c: nat, addr: nat) returns (j: nat)
      requires c in chunks
      ensures j <= |chunks[c].slots|
      ensures j < |chunks[c].slots| ==> chunks[c].slots[j].addr == addr
      ensures forall k :: 0 <= k < j ==> chunks[c].slots[k].addr != addr
    {
      j := 0;
      while j < |chunks[c].slots| && chunks[c].slots[j].addr != addr
        invariant j <= |chunks[c].slots|
        invariant forall k :: 0 <= k < j ==> chunks[c].slots[k].addr != addr
      {
        j := j + 1;
      }
    }

    /** First slot of the chunk that holds the given block free, or the number of slots. */
    method FindFree(c: nat, b: Block) returns (j: nat)
      requires c in chunks
      ensures j <= |chunks[c].slots|
      ensures j < |chunks[c].slots| ==> !chunks[c].slots[j].inUse && chunks[c].slots[j].AsBlock() == b
      ensures forall k :: 0 <= k < j ==> chunks[c].slots[k].inUse || chunks[c].slots[k].AsBlock() != b
    {
      j := 0;
      while j < |chunks[c].slots| && (chunks[c].slots[j].inUse || chunks[c].slots[j].AsBlock() != b)
        invariant j <= |chunks[c].slots|
        invariant forall k :: 0 <= k < j ==> chunks[c].slots[k].inUse || chunks[c].slots[k].AsBlock() != b
      {
        j := j + 1;
      }
    }

    /** First slot of the chunk that is not allocated and has address 0. */
    method FindSpare(c: nat) returns (j: nat)
      requires c in chunks
      ensures j <= |chunks[c].slots|
      ensures j < |chunks[c].slots| ==> !chunks[c].slots[j].Used() && !chunks[c].slots[j].inUse
      ensures forall k :: 0 <= k < j ==> chunks[c].slots[k].inUse || chunks[c].slots[k].Used()
    {
      j := 0;
      while j < |chunks[c].slots| && (chunks[c].slots[j].inUse || chunks[c].slots[j].Used())
        invariant j <= |chunks[c].slots|
        invariant forall k :: 0 <= k < j ==> chunks[c].slots[k].inUse || chunks[c].slots[k].Used()
      {
        j := j + 1;
      }
    }

    // -------------------------------------------------------------- split

    /** Halve the held block once. The right half goes to a spare slot and onto its free list;
        without a spare slot it is dropped. */
    method SplitOnce(r: Ref)
      requires Structure(Now(), One(r)) && Good(Now(), One(r))
      requires Known(chunks, r) && At(chunks, r).Free() && 0 < At(chunks, r).order <= MAX_ORDER
      modifies this
      ensures Structure(Now(), One(r)) && Good(Now(), One(r))
      ensures SameLive(old(chunks), chunks) && chunkList == old(chunkList) && direct == old(direct)
      ensures At(chunks, r) == Halved(old(At(chunks, r)))
      ensures old(Spares(chunks, r.chunk)) > 0 ==> Lossless(old(Now()), Now()) && Spares(chunks, r.chunk) == old(Spares(chunks, r.chunk)) - 1
      ensures old(Spares(chunks, r.chunk)) == 0 ==> Spares(chunks, r.chunk) == 0 && lostPages == old(lostPages) + Pow2(At(chunks, r).order)
      ensures Halves(old(Now()), Now(), r, old(At(chunks, r)).order, At(chunks, r).order) && KeepsUsed(old(chunks), chunks, r)
    {
      hide Structure;
      hide Good;
      hide SameLive;
      hide Halves;
      hide KeepsUsed;
      ghost var s := Now();
      StructureBasics(s, One(r));
      var block := At(chunks, r);
      SumSpare(chunks[r.chunk].slots);
      RightHalfInChunk(s, r);
      var found, c := FindChunk(RightHalf(block).addr);
      var j := FindSpare(c);
      if j < |chunks[c].slots| {
        var buddy := Ref(c, j);
        SplitStructure(s, r, j);
        SplitGood(s, r, j);
        HalvesSplit(s, r, j);
        chunks := Put(Put(chunks, r, Halved(block)), buddy, RightHalf(block));
        freeLists := freeLists[block.order - 1 := [buddy] + freeLists[block.order - 1]];
        assert Now() == AfterSplit(s, r, j);
        SpareUsed(s.chunks, r, Halved(block), j, RightHalf(block));
      } else {
        LossKeeps(s, r);
        HalvesLoss(s, r);
        chunks := Put(chunks, r, Halved(block));
        lost := lost[c := lost[c] + {RightHalf(block).AsBlock()}];
        lostPages := lostPages + Pow2(block.order - 1);
        assert Now() == AfterLoss(s, r);
        SumPut(s.chunks[c].slots, r.slot, Halved(block), SpareCount);
      }
    }

    /** Halve the held block until it has the target order. */
    method SplitBlock(r: Ref, target: nat)
      requires Structure(Now(), One(r)) && Good(Now(), One(r))
      requires Known(chunks, r) && At(chunks, r).Free() && target <= At(chunks, r).order <= MAX_ORDER
      modifies this
      ensures Structure(Now(), One(r)) && Good(Now(), One(r))
      ensures SameLive(old(chunks), chunks) && chunkList == old(chunkList) && direct == old(direct)
      ensures At(chunks, r) == old(At(chunks, r)).(order := target)
      ensures Lossless(old(Now()), Now()) <==> old(Spares(chunks, r.chunk)) >= old(At(chunks, r)).order - target
      ensures Halves(old(Now()), Now(), r, old(At(chunks, r)).order, target)
    {
      hide Structure;
      hide Good;
      hide Sum;
      hide Halves;
      hide KeepsUsed;
      SumSpare(chunks[r.chunk].slots);
      StructureBasics(Now(), One(r));
      HalvesNone(Now(), r, At(chunks, r).order);
      while At(chunks, r).order > target
        invariant Structure(Now(), One(r)) && Good(Now(), One(r))
        invariant Known(chunks, r) && At(chunks, r).Free() && target <= At(chunks, r).order <= MAX_ORDER
        invariant SameLive(old(chunks), chunks) && chunkList == old(chunkList) && direct == old(direct)
        invariant At(chunks, r) == old(At(chunks, r)).(order := At(chunks, r).order)
        invariant Spares(chunks, r.chunk) >= 0 && |freeLists| == old(|freeLists|) == MAX_ORDER + 1
        invariant Halves(old(Now()), Now(), r, old(At(chunks, r)).order, At(chunks, r).order)
        invariant var splits := old(At(chunks, r)).order - At(chunks, r).order;
                  if old(Spares(chunks, r.chunk)) >= splits
                  then Lossless(old(Now()), Now()) && Spares(chunks, r.chunk) == old(Spares(chunks, r.chunk)) - splits
                  else lostPages > old(lostPages) && Spares(chunks, r.chunk) == 0
        decreases At(chunks, r).order
      {
        ghost var m := Now();
        SplitOnce(r);
        StructureBasics(Now(), One(r));
        HalvesMore(old(Now()), m, Now(), r, old(At(chunks, r)).order, m.chunks[r.chunk].slots[r.slot].order);
      }
    }
  
    // -------------------------------------------------------------- chunks

    /** The largest order, from 11 down, of which an aligned block fits in `cur .. end`, and where. */
    method BestFit(cur: nat, end: nat) returns (order: nat, addr: nat)
      requires cur < end
      ensures Block(addr, order) == FirstBlock(cur, end) && cur <= addr && order <= MAX_CHUNK_ORDER
    {
      order := MAX_CHUNK_ORDER;
      while !(AlignUp(cur, Pow2(order)) + Pow2(order) <= end) && order > 0
        invariant order <= MAX_CHUNK_ORDER
        invariant BestOrder(cur, end, order) == BestOrder(cur, end, MAX_CHUNK_ORDER)
      {
        order := order - 1;
      }
      addr := AlignUp(cur, Pow2(order));
      AlignUpFacts(cur, Pow2(order));
    }

    /** Fill the empty table of chunk `c` with blocks, greedily from the front, and link each one. */
    method CarveChunk(c: nat)
      requires c in chunks && c == chunks[c].base > 0 && chunks[c].allocatedBlocks == 0
      requires |chunks[c].slots| == SLOTS_PER_CHUNK && forall i :: 0 <= i < SLOTS_PER_CHUNK ==> chunks[c].slots[i] == SPARE
      requires |freeLists| == MAX_ORDER + 1 && Linked(freeLists, chunks, {})
      modifies this`freeLists, this`chunks, this`totalPages, this`freePages
      ensures c in chunks && chunks == old(chunks)[c := chunks[c]] && chunks[c] == old(chunks[c]).(slots := chunks[c].slots)
      ensures |chunks[c].slots| == SLOTS_PER_CHUNK && FreshlyCarved(chunks[c])
      ensures |freeLists| == MAX_ORDER + 1 && Linked(freeLists, chunks, {})
      ensures freeLists == Pushed(old(freeLists), c, Carve(c, c + chunks[c].size, SLOTS_PER_CHUNK))
      ensures totalPages == old(totalPages) + Sum(chunks[c].slots, UsedWeight)
      ensures freePages == old(freePages) + Sum(chunks[c].slots, FreeWeight)
      ensures Sum(chunks[c].slots, LiveCount) == 0
    {
      hide Linked;
      hide Sum;
      hide Carve;
      hide FirstBlock;
      hide Pow2;
      hide Filled;
      var end := c + chunks[c].size;
      var cur, idx: nat := c, 0;
      ghost var done: seq<Block> := [];
      FilledNone(chunks[c].slots);
      SumZero(chunks[c].slots, UsedWeight);
      SumZero(chunks[c].slots, FreeWeight);
      SumZero(chunks[c].slots, LiveCount);
      while cur < end && idx < SLOTS_PER_CHUNK
        invariant c in chunks && chunks == old(chunks)[c := chunks[c]] && chunks[c] == old(chunks[c]).(slots := chunks[c].slots)
        invariant |chunks[c].slots| == SLOTS_PER_CHUNK && idx <= SLOTS_PER_CHUNK && c <= cur
        invariant |done| == idx && Carve(c, end, SLOTS_PER_CHUNK) == done + Carve(cur, end, SLOTS_PER_CHUNK - idx)
        invariant Filled(chunks[c].slots, done)
        invariant |freeLists| == MAX_ORDER + 1 && Linked(freeLists, chunks, {}) && freeLists == Pushed(old(freeLists), c, done)
        invariant totalPages == old(totalPages) + Sum(chunks[c].slots, UsedWeight)
        invariant freePages == old(freePages) + Sum(chunks[c].slots, FreeWeight)
        invariant Sum(chunks[c].slots, LiveCount) == 0
        decreases SLOTS_PER_CHUNK - idx
      {
        var order, addr := BestFit(cur, end);
        CarveStep(cur, end, SLOTS_PER_CHUNK - idx);
        var block := Slot(addr, order, false);
        FilledNext(chunks[c].slots, done, block);
        PushOne(old(freeLists), c, done, block.AsBlock());
        AddBlock(Ref(c, idx), block);
        cur := addr + Pow2(order);
        idx := idx + 1;
        done := done + [block.AsBlock()];
      }
      CarveStep(cur, end, SLOTS_PER_CHUNK - idx);
      assert done + [] == done;
    }

    /** A free block enters a spare slot and the list of its order. */
    method AddBlock(r: Ref, block: Slot)
      requires Known(chunks, r) && At(chunks, r) == SPARE && block.Free() && block.order <= MAX_ORDER
      requires |freeLists| == MAX_ORDER + 1 && Linked(freeLists, chunks, {})
      modifies this`freeLists, this`chunks, this`totalPages, this`freePages
      ensures chunks == Put(old(chunks), r, block)
      ensures |freeLists| == MAX_ORDER + 1 && Linked(freeLists, chunks, {})
      ensures freeLists == old(freeLists)[block.order := [r] + old(freeLists)[block.order]]
      ensures totalPages == old(totalPages) + Pow2(block.order) && freePages == old(freePages) + Pow2(block.order)
      ensures var before, after := old(chunks[r.chunk].slots), chunks[r.chunk].slots;
              && Sum(after, UsedWeight) == Sum(before, UsedWeight) + Pow2(block.order)
              && Sum(after, FreeWeight) == Sum(before, FreeWeight) + Pow2(block.order)
              && Sum(after, LiveCount) == Sum(before, LiveCount)
    {
      hide Linked;
      hide Sum;
      PutUnlinked(freeLists, chunks, {}, r, block);
      SumPut(chunks[r.chunk].slots, r.slot, block, UsedWeight);
      SumPut(chunks[r.chunk].slots, r.slot, block, FreeWeight);
      SumPut(chunks[r.chunk].slots, r.slot, block, LiveCount);
      Link(freeLists, Put(chunks, r, block), {} + {r}, r);
      assert {} + {r} - {r} == {};
      chunks := Put(chunks, r, block);
      freeLists := freeLists[block.order := [r] + freeLists[block.order]];
      totalPages := totalPages + Pow2(block.order);
      freePages := freePages + Pow2(block.order);
    }

    /** Turn `pages` pages from `meta` on, fresh from the PMM, into a chunk: the first page keeps the
        table, the rest is carved. */
    method InstallChunk(meta: nat, pages: nat)
      requires Structure(Now(), Nothing) && Good(Now(), Nothing) && meta > 0 && pages > 0
      requires meta + 1 !in chunks && forall c :: c in chunks ==> chunks[c].base == c && (c + chunks[c].size <= meta || meta + pages < c)
      modifies this
      ensures Structure(Now(), Nothing) && Good(Now(), Nothing) && NewChunk(old(Now()), Now(), meta + 1, pages)
      ensures direct == old(direct) && lostPages == old(lostPages)
    {
      hide Structure;
      hide Good;
      hide FreshlyCarved;
      hide Pushed;
      hide Carve;
      hide Linked;
      hide Sum;
      hide Sound;
      ghost var s := Now();
      StructureBasics(s, Nothing);
      var c := meta + 1;
      var raw := Chunk(c, pages - 1, seq(SLOTS_PER_CHUNK, _ => SPARE), 0);
      EmptyTableLinked(s, raw);
      chunks := chunks[c := raw];
      CarveChunk(c);
      CarveSound(chunks[c]);
      assert s.chunks[c := chunks[c]] == chunks;
      AddStructure(s, freeLists, chunks[c]);
      AddGood(s, freeLists, chunks[c]);
      chunkList := [c] + chunkList;
      lost := lost[c := {}];
      assert Now() == AfterAdd(s, freeLists, chunks[c]);
    }

    method ChunkFromPmm(pages: nat) returns (ok: bool)
      requires Valid() && pages > 0
      modifies this, pmm
      ensures Valid() && direct == old(direct) && lostPages == old(lostPages)
      ensures ok <==> !P.NoFit(old(pmm.regions), pages)
      ensures !ok ==> Now() == old(Now()) && pmm.regions == old(pmm.regions) && pmm.freePages == old(pmm.freePages)
      ensures ok ==> Obtains(old(All()), All(), pages)
      ensures ok ==> pmm.freePages == old(pmm.freePages) - pages
      ensures forall b :: IsLive(chunks, b) <==> old(IsLive(chunks, b))
      ensures P.SameLayout(pmm.regions, old(pmm.regions))
    {
      hide Structure;
      hide Good;
      hide Backed;
      hide NewChunk;
      ghost var s, regions := Now(), pmm.regions;
      var meta, hit := pmm.AllocPages(pages);
      PageZeroTaken(chunks, direct, regions);
      if meta == 0 { return false; }
      FreshRun(chunks, direct, regions, pmm.regions, meta, pages);
      StructureBasics(s, Nothing);
      InstallChunk(meta, pages);
      NewChunkBacked(s, Now(), meta + 1, pages, direct, pmm.regions);
      return true;
    }
  
    // -------------------------------------------------------------- page_alloc

    /** Mark the held block as allocated. */
    method MarkLive(ref: Ref) returns (r: nat)
      requires Known(chunks, ref)
      modifies this`chunks, this`freePages
      ensures Now() == AfterTake(old(Now()), ref) && r == At(old(chunks), ref).addr
    {
      ghost var s := Now();
      var chunk := chunks[ref.chunk];
      var block := chunk.slots[ref.slot];
      r := block.addr;
      chunks := chunks[ref.chunk := chunk.(slots := chunk.slots[ref.slot := block.(inUse := true)],
                                           allocatedBlocks := chunk.allocatedBlocks + 1)];
      freePages := freePages - Pow2(block.order);
      assert Now() == AfterTake(s, ref);
    }

    /** Take the head of list `k`, split it down to `order` and hand it out. */
    method TakeBlock(k: nat, order: nat) returns (r: nat)
      requires Valid() && order <= k <= MAX_CHUNK_ORDER && k < |freeLists| && freeLists[k] != []
      requires forall j :: order <= j < k ==> freeLists[j] == []
      modifies this
      ensures Valid() && Allocates(old(All()), All(), order, r)
    {
      hide Structure;
      hide Good;
      hide Backed;
      hide IsLive;
      hide SameLive;
      hide SameShape;
      hide Pow2;
      hide Sum;
      hide Aligned;
      hide P.NoFit;
      hide P.DisjointRegions;
      hide P.Counted;
      hide Reaches;
      hide Halves;
      ghost var s0 := Now();
      var ref := freeLists[k][0];
      UnlinkKeeps(s0, k, 0);
      freeLists := freeLists[k := Without(freeLists[k], 0)];
      assert Now() == AfterUnlink(s0, k, 0);
      SplitBlock(ref, order);
      ghost var s := Now();
      SameLiveBlocks(s0.chunks, s.chunks);
      SameLiveShape(s0.chunks, s.chunks);
      TakeKeeps(s, ref);
      r := MarkLive(ref);
      HalvesSame(AfterUnlink(s0, k, 0), s, ref, k, order, Now());
      BackedShape(s0.chunks, chunks, direct, pmm.regions);
      DirectOrders(s0.chunks, direct, pmm.regions);
      ServedAtOnce(old(All()), All(), order, r);
    }

    /** Allocate `2^order` pages; 0 means failure. Orders from 12 up go straight to the PMM. */
    method PageAlloc(order: nat) returns (r: nat)
      requires Valid()
      modifies this, pmm
      ensures Valid() && Allocates(old(All()), All(), order, r)
      decreases pmm.freePages
    {
      hide Structure;
      hide Good;
      hide Backed;
      hide Allocates;
      hide Refills;
      if order >= MAX_ORDER {
        r := AllocDirect(order);
        return;
      }
      StructureBasics(Now(), Nothing);
      P.FreeNotNegative(pmm.regions);
      var k := order;
      while k <= MAX_CHUNK_ORDER && freeLists[k] == []
        invariant order <= k <= MAX_CHUNK_ORDER + 1
        invariant forall j :: order <= j < k ==> freeLists[j] == []
      {
        k := k + 1;
      }
      if k <= MAX_CHUNK_ORDER {
        r := TakeBlock(k, order);
        return;
      }
      var ok := Refill(order);
      if !ok {
        NothingAllocated(All(), order);
        return 0;
      }
      ghost var mid := All();
      r := PageAlloc(order);
      RefillThenAllocate(old(All()), mid, All(), order, r);
    }

    /** Obtain a new chunk sized for the order; failing that, a 2 MB one if that is large enough. */
    method Refill(order: nat) returns (ok: bool)
      requires Valid() && order < MAX_ORDER
      modifies this, pmm
      ensures Valid()
      ensures !ok ==> All() == old(All())
      ensures ok <==> old(All()).Obtainable(order)
      ensures ok ==> Obtains(old(All()), All(), old(All()).NextChunk(order))
      ensures ok && !old(All()).Servable(order) ==> Refills(old(All()), All(), order)
      ensures ok ==> pmm.freePages < old(pmm.freePages)
    {
      hide Structure;
      hide Good;
      hide Backed;
      hide NewChunk;
      hide IsLive;
      hide Extends;
      hide Pow2;
      hide Carve;
      hide P.NoFit;
      hide P.DisjointRegions;
      hide P.Counted;
      ChunkSizes(order);
      var pages := ChunkPages(order);
      ok := ChunkFromPmm(pages);
      ghost var got := pages;
      if !ok && pages > MIN_CHUNK_PAGES && MIN_CHUNK_PAGES >= Pow2(order) + 1 {
        ok := ChunkFromPmm(MIN_CHUNK_PAGES);
        got := MIN_CHUNK_PAGES;
      }
      if ok {
        ghost var meta: nat :| NewChunk(old(Now()), Now(), meta + 1, got);
        ghost var c := meta + 1;
        NewChunkExtends(old(Now()), Now(), c, got);
        if order <= 9 {
          ChunkServes(order, c, got);
          NewChunkServes(old(Now()), Now(), c, got, order);
        }
      }
    }

    /** A block of order 12 or more, straight from the PMM. */
    method AllocDirect(order: nat) returns (r: nat)
      requires Valid() && order >= MAX_ORDER
      modifies this`direct, pmm
      ensures Valid() && Now() == old(Now()) && Allocates(old(All()), All(), order, r)
    {
      hide Structure;
      hide Good;
      hide IsLive;
      hide Backed;
      hide Pow2;
      hide P.NoFit;
      hide P.FirstFit;
      hide P.DisjointRegions;
      hide P.Counted;
      ghost var regions := pmm.regions;
      ghost var hit;
      r, hit := pmm.AllocPages(Pow2(order));
      PageZeroTaken(chunks, direct, regions);
      if r != 0 {
        FreshRun(chunks, direct, regions, pmm.regions, r, Pow2(order));
        DirectNotLive(Now(), direct, regions, Block(r, order));
        BackedWith(chunks, direct, pmm.regions, Block(r, order));
        direct := direct + {Block(r, order)};
      }
    }
  
    // -------------------------------------------------------------- page_free

    /** Merge the held block of chunk `c` with its buddy as long as the buddy is free. */
    method Coalesce(c: nat, slot: nat) returns (held: nat)
      requires Structure(Now(), One(Ref(c, slot))) && Known(chunks, Ref(c, slot)) && At(chunks, Ref(c, slot)).Free()
      requires At(chunks, Ref(c, slot)).order <= MAX_ORDER
      modifies this`chunks, this`freeLists
      ensures Structure(Now(), One(Ref(c, held))) && Known(chunks, Ref(c, held)) && At(chunks, Ref(c, held)).Free()
      ensures At(chunks, Ref(c, held)).order <= MAX_ORDER
      ensures SameLive(old(chunks), chunks) && Drift(Now()) == old(Drift(Now()))
      ensures old(Good(Now(), One(Ref(c, slot)))) ==> Good(Now(), One(Ref(c, held)))
      ensures var slots := chunks[c].slots; slots[held].order < MAX_ORDER && chunks[c].Has(Buddy(slots[held].AsBlock()).addr) ==>
                forall j :: 0 <= j < |slots| && slots[j].Free() ==> slots[j].AsBlock() != Buddy(slots[held].AsBlock())
      ensures old(At(chunks, Ref(c, slot))).order <= At(chunks, Ref(c, held)).order && SameCounters(old(chunks), chunks)
      ensures BuddiesTaken(old(freeLists), freeLists, c, old(At(chunks, Ref(c, slot))).order, At(chunks, Ref(c, held)).order)
    {
      hide Structure;
      hide Good;
      hide SameLive;
      hide Drift;
      hide OneTaken;
      ghost var good := Good(Now(), One(Ref(c, slot)));
      held := slot;
      SameLiveReflexive(chunks);
      while At(chunks, Ref(c, held)).order < MAX_ORDER
        invariant Structure(Now(), One(Ref(c, held))) && Known(chunks, Ref(c, held)) && At(chunks, Ref(c, held)).Free()
        invariant At(chunks, Ref(c, held)).order <= MAX_ORDER
        invariant SameLive(old(chunks), chunks) && Drift(Now()) == old(Drift(Now()))
        invariant good ==> Good(Now(), One(Ref(c, held)))
        invariant old(At(chunks, Ref(c, slot))).order <= At(chunks, Ref(c, held)).order && SameCounters(old(chunks), chunks)
        invariant BuddiesTaken(old(freeLists), freeLists, c, old(At(chunks, Ref(c, slot))).order, At(chunks, Ref(c, held)).order)
        decreases MAX_ORDER - At(chunks, Ref(c, held)).order
      {
        ghost var s := Now();
        StructureBasics(s, One(Ref(c, held)));
        var block := chunks[c].slots[held].AsBlock();
        if !chunks[c].Has(Buddy(block).addr) { break; }
        var j := FindFree(c, Buddy(block));
        if j == |chunks[c].slots| { break; }
        held := MergeOnce(c, held, j);
        BuddiesMore(old(freeLists), s.lists, freeLists, c, old(At(chunks, Ref(c, slot))).order, block.order);
        SameLiveTransitive(old(chunks), s.chunks, chunks);
      }
    }

    /** Merge the held block of chunk `c` with its free buddy in slot `j`: the left of the two grows and is held. */
    method MergeOnce(c: nat, held: nat, j: nat) returns (l: nat)
      requires Structure(Now(), One(Ref(c, held))) && Known(chunks, Ref(c, held)) && Known(chunks, Ref(c, j))
      requires var slots := chunks[c].slots;
               && slots[held].Free() && slots[held].order < MAX_ORDER
               && !slots[j].inUse && slots[j].AsBlock() == Buddy(slots[held].AsBlock()) && chunks[c].Has(slots[j].addr)
      modifies this`chunks, this`freeLists
      ensures Structure(Now(), One(Ref(c, l))) && Known(chunks, Ref(c, l)) && At(chunks, Ref(c, l)).Free()
      ensures At(chunks, Ref(c, l)).order == old(chunks)[c].slots[held].order + 1
      ensures SameLive(old(chunks), chunks) && Drift(Now()) == old(Drift(Now()))
      ensures old(Good(Now(), One(Ref(c, held)))) ==> Good(Now(), One(Ref(c, l)))
      ensures var k := old(chunks)[c].slots[held].order; BuddiesTaken(old(freeLists), freeLists, c, k, k + 1)
      ensures SameCounters(old(chunks), chunks)
    {
      hide Structure;
      hide Good;
      hide SameLive;
      hide Drift;
      hide Linked;
      ghost var s := Now();
      StructureBasics(s, One(Ref(c, held)));
      HeldBuddy(s, c, held, j);
      var order := chunks[c].slots[held].order;
      var i :| 0 <= i < |freeLists[order]| && freeLists[order][i] == Ref(c, j);
      var r;
      l, r := if chunks[c].slots[held].addr < chunks[c].slots[j].addr then held else j,
              if chunks[c].slots[held].addr < chunks[c].slots[j].addr then j else held;
      MergeStructure(s, c, held, j, l, r, i);
      MergeDrift(s, c, held, j, l, r, i);
      if Good(s, One(Ref(c, held))) {
        BuddySlots(s, c, held, j);
        MergeGood(s, c, held, j, l, r, i);
      }
      freeLists := freeLists[order := Without(freeLists[order], i)];
      var left := chunks[c].slots[l];
      chunks := Put(Put(chunks, Ref(c, l), left.(order := left.order + 1)), Ref(c, r), SPARE);
      assert Now() == AfterMerge(s, c, l, r, i);
      assert OneTaken(s.lists[order], freeLists[order], c);
    }
  
    /** Take every free block of chunk `c` off its list. */
    method EmptyChunk(c: nat)
      requires c in chunks && |freeLists| == MAX_ORDER + 1 && Linked(freeLists, chunks, {})
      modifies this`freeLists, this`totalPages, this`freePages
      ensures |freeLists| == MAX_ORDER + 1 && Linked(freeLists, chunks, FreeRefs(chunks, c, |chunks[c].slots|))
      ensures totalPages == old(totalPages) - Sum(chunks[c].slots, FreeWeight)
      ensures freePages == old(freePages) - Sum(chunks[c].slots, FreeWeight)
    {
      hide Linked;
      var slots := chunks[c].slots;
      assert FreeRefs(chunks, c, 0) == {};
      for j := 0 to |slots|
        invariant |freeLists| == MAX_ORDER + 1 && Linked(freeLists, chunks, FreeRefs(chunks, c, j))
        invariant totalPages == old(totalPages) - Sum(slots[..j], FreeWeight)
        invariant freePages == old(freePages) - Sum(slots[..j], FreeWeight)
      {
        DropNext(freeLists, chunks, c, j);
        assert slots[..j + 1][..j] == slots[..j];
        if slots[j].Free() {
          var k := slots[j].order;
          var i :| 0 <= i < |freeLists[k]| && freeLists[k][i] == Ref(c, j);
          freeLists := freeLists[k := Without(freeLists[k], i)];
          totalPages := totalPages - Pow2(k);
          freePages := freePages - Pow2(k);
        }
      }
      assert slots[..|slots|] == slots;
    }

    /** Return chunk number `i`, which has no allocated block, to the PMM. */
    method DropChunk(i: nat)
      requires Structured() && i < |chunkList| && chunkList[i] in chunks && chunks[chunkList[i]].allocatedBlocks == 0
      modifies this, pmm
      ensures Structured() && Dropped(old(All()), All(), i)
      ensures old(Valid()) ==> Valid() && forall b :: IsLive(chunks, b) <==> old(IsLive(chunks, b))
    {
      hide Structure;
      hide Good;
      hide Backed;
      hide Linked;
      hide Sum;
      hide IsLive;
      hide Drift;
      ghost var s, regions, good := Now(), pmm.regions, Valid();
      StructureBasics(s, Nothing);
      var c, size := chunkList[i], chunks[chunkList[i]].size;
      EmptyChunk(c);
      DropLinked(freeLists, chunks, c);
      DropStructure(s, freeLists, i);
      DropDrift(s, freeLists, i);
      chunkList := Without(chunkList, i);
      chunks := chunks - {c};
      lost := lost - {c};
      assert Now() == AfterDrop(s, freeLists, i);
      if good { DropGood(s, freeLists, i); }
      pmm.FreePages(c - 1, size + 1);
      if good { BackedDrop(s, direct, regions, pmm.regions, c); }
    }

    /** Return every chunk without allocated blocks, from the head of the list, while more than two remain. */
    method CheckEmptyChunks()
      requires Structured()
      modifies this, pmm
      ensures Structured() && direct == old(direct) && lostPages == old(lostPages)
      ensures Shrinks(old(Now()), Now()) && Returns(old(All()), All())
      ensures Drift(Now()) == old(Drift(Now())) && totalPages - freePages == old(totalPages - freePages)
      ensures |chunkList| > MIN_CHUNKS_TO_KEEP ==> forall c :: c in chunkList ==> c in chunks && chunks[c].allocatedBlocks != 0
      ensures Tidy(old(chunkList), Idle(old(chunks)), chunkList)
      ensures old(Valid()) ==> Valid() && forall b :: IsLive(chunks, b) <==> old(IsLive(chunks, b))
    {
      hide Structure;
      hide Good;
      hide Backed;
      hide IsLive;
      hide Drift;
      hide Since;
      hide ScanAt;
      hide Tidy;
      hide Idle;
      ghost var good := Valid();
      StructureBasics(Now(), Nothing);
      SinceItself(All());
      var i := 0;
      ghost var n, idle := 0, Idle(chunks);
      NothingTidied(chunkList, idle);
      IdleStart(chunks);
      while i < |chunkList|
        invariant Structured() && i <= |chunkList| && Since(old(All()), All())
        invariant |chunkList| > MIN_CHUNKS_TO_KEEP ==>
                    forall j :: 0 <= j < i ==> chunkList[j] in chunks && chunks[chunkList[j]].allocatedBlocks != 0
        invariant good ==> Valid() && forall b :: IsLive(chunks, b) <==> old(IsLive(chunks, b))
        invariant ScanAt(old(chunkList), idle, chunkList, n, i) && Idle(chunks) == idle * chunks.Keys
        decreases |chunkList| - i
      {
        StructureBasics(Now(), Nothing);
        ScanNext(old(chunkList), idle, chunkList, n, i);
        IdleIs(chunks, idle, chunkList[i]);
        if |chunkList| > MIN_CHUNKS_TO_KEEP { n := n + 1; }
        if chunks[chunkList[i]].allocatedBlocks == 0 && |chunkList| > MIN_CHUNKS_TO_KEEP {
          ghost var mid := All();
          ListedOnce(Now(), i);
          DropChunk(i);
          StructureBasics(Now(), Nothing);
          SinceDropped(old(All()), mid, All(), i);
          IdleLess(mid.s.chunks, idle, mid.s.list[i]);
        } else {
          i := i + 1;
        }
      }
      StructureBasics(Now(), Nothing);
      SinceMeans(old(All()), All());
      ScanEnd(old(chunkList), idle, chunkList, n);
    }

    /** Hand a block of order 12 or more straight back to the PMM. The address is taken at its word: the
        invariant survives if and only if the run touches no chunk and no other block taken this way. */
    method FreeDirect(page: nat, order: nat)
      requires Structured() && order >= MAX_ORDER && page > 0
      modifies this`direct, pmm
      ensures Structured() && Now() == old(Now()) && direct == old(direct) - {Block(page, order)}
      ensures forall p: nat :: P.FreeIn(pmm.regions, p) <==>
                P.FreeIn(old(pmm.regions), p) || (page <= p < page + Pow2(order) && P.ManagedIn(pmm.regions, p))
      ensures old(Valid()) ==> (Valid() <==> old(Untouched(chunks, direct, Block(page, order))))
      ensures old(Valid()) && old(Live(Block(page, order))) ==> Valid() && forall b :: Live(b) <==> old(Live(b)) && b != Block(page, order)
    {
      hide Structure;
      hide Good;
      hide Backed;
      ghost var regions, b := pmm.regions, Block(page, order);
      pmm.FreePages(page, Pow2(order));
      if old(Valid()) {
        if Live(b) {
          if IsLive(chunks, b) { LiveSlot(Now(), b); }
          LiveApartFromDirect(Now(), direct, regions, b);
          DirectUntouched(chunks, direct, regions, b);
        }
        if Untouched(chunks, direct, b) {
          BackedWithout(chunks, direct, regions, pmm.regions, b);
        } else {
          TouchedNotBacked(chunks, direct, regions, pmm.regions, b);
        }
      }
      direct := direct - {b};
    }

    /** Merge the held block of chunk `c` as far as it goes and put the result on its free list. */
    method Rejoin(c: nat, slot: nat)
      requires Structure(Now(), One(Ref(c, slot))) && Known(chunks, Ref(c, slot)) && At(chunks, Ref(c, slot)).Free()
      requires At(chunks, Ref(c, slot)).order <= MAX_ORDER
      modifies this`chunks, this`freeLists
      ensures Structure(Now(), Nothing) && SameLive(old(chunks), chunks) && Drift(Now()) == old(Drift(Now()))
      ensures old(Good(Now(), One(Ref(c, slot)))) ==> Good(Now(), Nothing)
      ensures exists top: nat, held: nat :: Rejoined(old(freeLists), freeLists, c, old(At(chunks, Ref(c, slot))).order, top, held)
      ensures SameCounters(old(chunks), chunks)
    {
      hide Structure;
      hide Good;
      hide SameLive;
      ghost var good := Good(Now(), One(Ref(c, slot)));
      var held := Coalesce(c, slot);
      ghost var s := Now();
      StructureBasics(s, One(Ref(c, held)));
      LinkStructure(s, Ref(c, held));
      if good {
        NoFreeBuddy(s, c, held);
        LinkGood(s, Ref(c, held));
      }
      var k := chunks[c].slots[held].order;
      freeLists := freeLists[k := [Ref(c, held)] + freeLists[k]];
      assert Now() == AfterLink(s, Ref(c, held));
      assert freeLists[k := old(freeLists)[k]] == s.lists;
      assert Rejoined(old(freeLists), freeLists, c, old(At(chunks, Ref(c, slot))).order, k, held);
    }

    /** Mark a tracked allocation free with the given order, merge it and link it. */
    method GiveBack(c: nat, i: nat, order: nat)
      requires Structured() && Known(chunks, Ref(c, i)) && chunks[c].slots[i].Live() && order < MAX_ORDER
      modifies this`chunks, this`freeLists, this`freePages
      ensures Structured() && SameShape(old(chunks), chunks) && freePages == old(freePages) + Pow2(order)
      ensures Drift(Now()) == old(Drift(Now())) + Pow2(old(chunks[c].slots[i]).order) - Pow2(order)
      ensures old(Valid()) && old(chunks[c].slots[i]).order == order ==>
                Valid() && forall b :: IsLive(chunks, b) <==> old(IsLive(chunks, b)) && b != old(chunks[c].slots[i]).AsBlock()
      ensures exists top: nat, held: nat :: Rejoined(old(freeLists), freeLists, c, order, top, held)
      ensures OneFewer(old(chunks), chunks, c)
    {
      hide Structure;
      hide Good;
      hide Backed;
      hide IsLive;
      hide SameLive;
      hide Linked;
      hide Drift;
      ghost var s := Now();
      ghost var good := Valid() && chunks[c].slots[i].order == order;
      ReturnStructure(s, Ref(c, i), order);
      ReturnDrift(s, Ref(c, i), order);
      if good { ReturnGood(s, Ref(c, i)); }
      var slots := chunks[c].slots;
      chunks := chunks[c := chunks[c].(slots := slots[i := Slot(slots[i].addr, order, false)], allocatedBlocks := chunks[c].allocatedBlocks - 1)];
      freePages := freePages + Pow2(order);
      ghost var t := Now();
      assert t == AfterReturn(s, Ref(c, i), order);
      Rejoin(c, i);
      SameLiveBlocks(t.chunks, chunks);
      SameLiveShape(t.chunks, chunks);
      if good { BackedShape(s.chunks, chunks, direct, pmm.regions); }
    }

    /** Put a tracked allocation back with the given order, merge it, link it, and tidy up. The order is taken
        at its word: the invariant survives if and only if it is the one the block was allocated with. */
    method FreeBlock(c: nat, i: nat, order: nat)
      requires Structured() && Known(chunks, Ref(c, i)) && chunks[c].slots[i].Live() && order < MAX_ORDER
      modifies this, pmm
      ensures Structured() && direct == old(direct) && lostPages == old(lostPages)
      ensures Remains(old(Now()), Now()) && totalPages - freePages == old(totalPages - freePages) - Pow2(order)
      ensures Drift(Now()) == old(Drift(Now())) + Pow2(old(chunks[c].slots[i]).order) - Pow2(order)
      ensures c in chunks && chunks[c].allocatedBlocks == 0 ==> |chunkList| <= MIN_CHUNKS_TO_KEEP
      ensures old(chunks[c].allocatedBlocks) != 1 || old(|chunkList|) <= 2 ==> chunkList == old(chunkList) && pmm.regions == old(pmm.regions)
      ensures old(chunks[c].allocatedBlocks) == 1 ==> Tidy(old(chunkList), Idle(old(chunks)) + {c}, chunkList)
      ensures old(Valid()) ==> (Valid() <==> old(chunks[c].slots[i]).order == order)
      ensures old(Valid()) && old(chunks[c].slots[i]).order == order ==>
                forall b :: IsLive(chunks, b) <==> old(IsLive(chunks, b)) && b != old(chunks[c].slots[i]).AsBlock()
    {
      hide Structure;
      hide Good;
      hide Backed;
      hide IsLive;
      hide Linked;
      hide Drift;
      hide Tidy;
      hide Idle;
      hide ScanAt;
      ghost var s, was := Now(), chunks[c].slots[i].order;
      if Valid() { GoodDrift(s, Nothing); }
      StructureBasics(s, Nothing);
      GiveBack(c, i, order);
      StructureBasics(Now(), Nothing);
      ghost var t := Now();
      if s.chunks[c].allocatedBlocks == 1 { IdleOneMore(s.chunks, chunks, c); }
      NothingTidied(chunkList, Idle(chunks));
      if chunks[c].allocatedBlocks == 0 && |chunkList| > MIN_CHUNKS_TO_KEEP {
        CheckEmptyChunks();
        ShrinksRemains(s, t, Now());
        StructureBasics(Now(), Nothing);
      }
      if was != order {
        Pow2Distinct(was, order);
        if Good(Now(), Nothing) { GoodDrift(Now(), Nothing); }
      }
    }

    /** The block table says nothing is to be done: no chunk holds the page, or a free block starts there
        (a double free), or the page is unknown and no slot is spare. */
    ghost predicate Ignored(page: nat)
      reads this
    {
      forall c :: c in chunks && chunks[c].Has(page) ==>
        var slots := chunks[c].slots;
        || (exists j :: 0 <= j < |slots| && slots[j].addr == page && !slots[j].inUse && forall k :: 0 <= k < j ==> slots[k].addr != page)
        || (forall j :: 0 <= j < |slots| ==> slots[j].addr != page && slots[j].addr != 0)
    }

    /** A chunk holds the page, but no tracked block starts there and a slot is spare. */
    ghost predicate Unknown(page: nat)
      reads this
    {
      && (exists c :: c in chunks && chunks[c].Has(page))
      && forall c :: c in chunks && chunks[c].Has(page) ==>
           var slots := chunks[c].slots;
           && (forall j :: 0 <= j < |slots| ==> slots[j].addr != page)
           && (exists j :: 0 <= j < |slots| && slots[j].addr == 0)
    }

    /** What a caller may free without breaking the allocator: nothing at all (a null, misaligned or ignored
        address), a live block with its own order, or, from order 12 on, a run that touches no chunk and no
        other block taken straight from the PMM. */
    ghost predicate Harmless(physAddr: nat, order: nat)
      reads this
    {
      var page := physAddr / P.PAGE_SIZE;
      || physAddr == 0 || physAddr % P.PAGE_SIZE != 0
      || (order < 12 && (Ignored(page) || Live(Block(page, order))))
      || (order >= 12 && Untouched(chunks, direct, Block(page, order)))
    }

    /** Free `2^order` pages at byte address `physAddr`. Freeing what was allocated undoes the allocation;
        the ignored cases change nothing; anything else is taken at its word and breaks the invariant: an
        unknown page or a wrong order moves `2^order` pages to the free ones that nobody had allocated. */
    method PageFree(physAddr: nat, order: nat)
      requires Structured()
      modifies this, pmm
      ensures Structured()
      ensures old(Valid()) ==> (Valid() <==> old(Harmless(physAddr, order)))
      ensures old(Valid()) && physAddr % P.PAGE_SIZE == 0 && old(Live(Block(physAddr / P.PAGE_SIZE, order))) ==>
                && Valid() && Remains(old(Now()), Now()) && lostPages == old(lostPages)
                && forall b :: Live(b) <==> old(Live(b)) && b != Block(physAddr / P.PAGE_SIZE, order)
      ensures physAddr == 0 || physAddr % P.PAGE_SIZE != 0 || (order < MAX_ORDER && old(Ignored(physAddr / P.PAGE_SIZE))) ==>
                Now() == old(Now()) && direct == old(direct) && pmm.regions == old(pmm.regions)
      ensures physAddr % P.PAGE_SIZE == 0 && physAddr != 0 && order < MAX_ORDER && old(Unknown(physAddr / P.PAGE_SIZE)) ==>
                totalPages - freePages == old(totalPages - freePages) - Pow2(order)
      ensures old(Valid()) && physAddr % P.PAGE_SIZE == 0 && physAddr != 0 && order < MAX_ORDER && !old(Ignored(physAddr / P.PAGE_SIZE)) ==>
                totalPages - freePages == old(totalPages - freePages) - Pow2(order)
    {
      hide Structure;
      hide Good;
      hide Backed;
      hide IsLive;
      hide Untouched;
      if physAddr == 0 || physAddr % P.PAGE_SIZE != 0 {
        if Valid() { NullNotLive(Now(), direct, pmm.regions, order); }
        return;
      }
      var page := physAddr / P.PAGE_SIZE;
      if order >= MAX_ORDER {
        if Valid() && Live(Block(page, order)) { DirectRemains(Now()); }
        FreeDirect(page, order);
        return;
      }
      FreeSmall(page, order);
    }

    /** A block nobody was given: it is entered in a spare slot and freed from there. */
    method FreeInvented(c: nat, i: nat, page: nat, order: nat)
      requires Structured() && page > 0 && order < MAX_ORDER && Known(chunks, Ref(c, i)) && !At(chunks, Ref(c, i)).Used()
      modifies this, pmm
      ensures Structured() && (old(Valid()) ==> !Valid())
      ensures totalPages - freePages == old(totalPages - freePages) - Pow2(order)
    {
      hide Structure;
      hide Good;
      hide Backed;
      ghost var s, good := Now(), Good(Now(), Nothing);
      InventStructure(s, Ref(c, i), page, order);
      InventDrift(s, Ref(c, i), page, order);
      if good { GoodDrift(s, Nothing); }
      var chunk := chunks[c];
      chunks := chunks[c := chunk.(slots := chunk.slots[i := Slot(page, order, true)], allocatedBlocks := chunk.allocatedBlocks + 1)];
      assert Now() == AfterInvent(s, Ref(c, i), page, order);
      FreeBlock(c, i, order);
      if good && Good(Now(), Nothing) { GoodDrift(Now(), Nothing); }
    }

    /** The same for orders below 12, by page number. */
    method FreeSmall(page: nat, order: nat)
      requires Structured() && page > 0 && order < MAX_ORDER
      modifies this, pmm
      ensures Structured()
      ensures old(Valid()) ==> (Valid() <==> old(Ignored(page)) || old(Live(Block(page, order))))
      ensures old(Valid()) && old(Live(Block(page, order))) ==>
                Remains(old(Now()), Now()) && lostPages == old(lostPages) && forall b :: Live(b) <==> old(Live(b)) && b != Block(page, order)
      ensures old(Ignored(page)) ==> Now() == old(Now()) && direct == old(direct) && pmm.regions == old(pmm.regions)
      ensures old(Unknown(page)) || (old(Valid()) && !old(Ignored(page))) ==>
                totalPages - freePages == old(totalPages - freePages) - Pow2(order)
    {
      hide Structure;
      hide Good;
      hide Backed;
      hide IsLive;
      hide Linked;
      hide Pow2;
      hide Remains;
      hide Drift;
      ghost var s, good := Now(), Valid();
      StructureBasics(s, Nothing);
      var found, c := FindChunk(page);
      if good { SmallLive(s, direct, pmm.regions, page, order); }
      if !found { return; }
      var i := FindSlot(c, page);
      if i == |chunks[c].slots| {
        i := FindSlot(c, 0);
        if i == |chunks[c].slots| { return; }
        FreeInvented(c, i, page, order);
        return;
      }
      if !chunks[c].slots[i].inUse { return; }
      FreeBlock(c, i, order);
    }
  }

  lemma FilledNone(slots: seq<Slot>)
    requires forall i :: 0 <= i < |slots| ==> slots[i] == SPARE
    ensures Filled(slots, [])
  {
  }

  lemma FilledNext(slots: seq<Slot>, done: seq<Block>, block: Slot)
    requires Filled(slots, done) && |done| < |slots| && !block.inUse
    ensures slots[|done|] == SPARE && Filled(slots[|done| := block], done + [block.AsBlock()])
  {
  }

  /** Between the two states no split dropped a half. */
  ghost predicate Lossless(s: State, t: State) {
    t.lostPages == s.lostPages && t.lost == s.lost
  }

  /** The spare slots of a chunk. */
  function Spares(chunks: Chunks, c: nat): int
    requires c in chunks
  {
    Sum(chunks[c].slots, SpareCount)
  }

  lemma SpareUsed(chunks: Chunks, r: Ref, s: Slot, j: nat, t: Slot)
    requires Known(chunks, r) && Known(chunks, Ref(r.chunk, j)) && r.slot != j && t.Used() && s.Used()
    requires At(chunks, r).Used() && SpareCount(At(chunks, Ref(r.chunk, j))) == 1
    ensures Spares(Put(Put(chunks, r, s), Ref(r.chunk, j), t), r.chunk) == Spares(chunks, r.chunk) - 1
  {
    SumPut(chunks[r.chunk].slots, r.slot, s, SpareCount);
    SumPut(chunks[r.chunk].slots[r.slot := s], j, t, SpareCount);
  }

  /** The right half of a block lies in the block's own chunk and in no other. */
  lemma RightHalfInChunk(s: State, r: Ref)
    requires Structure(s, One(r)) && Good(s, One(r)) && Known(s.chunks, r) && At(s.chunks, r).Free() && At(s.chunks, r).order > 0
    ensures s.chunks[r.chunk].Has(RightHalf(At(s.chunks, r)).addr)
    ensures forall c :: c in s.chunks && s.chunks[c].Has(RightHalf(At(s.chunks, r)).addr) ==> c == r.chunk
  {
    hide Structure;
    hide Good;
    GoodSlot(s, One(r), r);
    forall c | c in s.chunks && c != r.chunk ensures Apart(s.chunks[c], s.chunks[r.chunk]) { GoodApart(s, One(r), c, r.chunk); }
  }

  /** The list gained chunk `c` of the given extent, freshly carved; the others are untouched. */
  ghost predicate NewChunk(s: State, t: State, c: nat, pages: nat) {
    && t.list == [c] + s.list
    && c !in s.chunks && c in t.chunks && t.chunks == s.chunks[c := t.chunks[c]]
    && t.chunks[c].base == c > 0 && t.chunks[c].size == pages - 1 && |t.chunks[c].slots| == 126
    && FreshlyCarved(t.chunks[c]) && t.lost == s.lost[c := {}]
    && t.lists == Pushed(s.lists, c, Carve(c, c + pages - 1, 126))
  }

  /** The blocks of a new chunk pushed, in order, each onto the list of its order. */
  ghost function Pushed(lists: seq<seq<Ref>>, c: nat, blocks: seq<Block>): seq<seq<Ref>> {
    if blocks == [] then lists
    else
      var n := |blocks| - 1;
      var l, k := Pushed(lists, c, blocks[..n]), blocks[n].order;
      if k < |l| then l[k := [Ref(c, n)] + l[k]] else l
  }

  lemma PushOne(lists: seq<seq<Ref>>, c: nat, blocks: seq<Block>, b: Block)
    requires b.order < |Pushed(lists, c, blocks)|
    ensures var l := Pushed(lists, c, blocks); Pushed(lists, c, blocks + [b]) == l[b.order := [Ref(c, |blocks|)] + l[b.order]]
  {
    assert (blocks + [b])[..|blocks|] == blocks;
  }

  lemma NewChunkBacked(s: State, t: State, c: nat, pages: nat, direct: set<Block>, regions: seq<P.Region>)
    requires NewChunk(s, t, c, pages) && Backed(s.chunks, direct, regions) && pages > 0 && c > 1
    requires forall page: nat :: c - 1 <= page < c - 1 + pages ==> P.ManagedIn(regions, page) && !P.FreeIn(regions, page)
    requires forall b :: b in direct ==> End(b) <= c - 1 || c - 1 + pages <= b.addr
    ensures Backed(t.chunks, direct, regions)
    ensures forall b :: IsLive(t.chunks, b) <==> IsLive(s.chunks, b)
  {
    hide Carve;
    hide Sum;
    hide Total;
    hide P.FreeIn;
    hide P.ManagedIn;
    assert t.chunks - {c} == s.chunks;
    forall b ensures IsLive(t.chunks, b) <==> IsLive(s.chunks, b) {
      LiveElsewhere(t.chunks, c, b);
    }
    BackedPlus(s.chunks, t.chunks, c, direct, regions);
  }

  lemma BackedPlus(a: Chunks, b: Chunks, c: nat, direct: set<Block>, regions: seq<P.Region>)
    requires Backed(a, direct, regions) && c > 1 && c in b && b.Keys == a.Keys + {c}
    requires forall d :: d in a ==> d in b && (d != c ==> b[d] == a[d])
    requires forall page: nat :: c - 1 <= page < c + b[c].size ==> P.ManagedIn(regions, page) && !P.FreeIn(regions, page)
    requires forall x :: x in direct ==> End(x) < c || c + b[c].size <= x.addr
    ensures Backed(b, direct, regions)
  {
    hide P.FreeIn;
    hide P.ManagedIn;
  }

  lemma DirectOrders(chunks: Chunks, direct: set<Block>, regions: seq<P.Region>)
    requires Backed(chunks, direct, regions)
    ensures forall b :: b in direct ==> b.order >= MAX_ORDER && b.addr > 0
  {
  }

  lemma PageZeroTaken(chunks: Chunks, direct: set<Block>, regions: seq<P.Region>)
    requires Backed(chunks, direct, regions)
    ensures !P.FreeIn(regions, 0)
  {
  }

  /** A run that was free in the PMM touches no chunk and no direct block; taking it keeps the rest backed. */
  lemma FreshRun(chunks: Chunks, direct: set<Block>, regions: seq<P.Region>, regions': seq<P.Region>, meta: nat, pages: nat)
    requires Backed(chunks, direct, regions) && P.SameLayout(regions', regions) && meta > 0 && pages > 0
    requires forall page: nat :: meta <= page < meta + pages ==> P.FreeIn(regions, page)
    requires forall page: nat :: P.FreeIn(regions', page) <==> P.FreeIn(regions, page) && !(meta <= page < meta + pages)
    ensures meta + 1 !in chunks
    ensures forall c :: c in chunks ==> c + chunks[c].size <= meta || meta + pages < c
    ensures forall b :: b in direct ==> End(b) <= meta || meta + pages <= b.addr
    ensures forall page: nat :: meta <= page < meta + pages ==> P.ManagedIn(regions', page) && !P.FreeIn(regions', page)
    ensures Backed(chunks, direct, regions')
  {
    P.SameManaged(regions, regions');
    P.FreeManaged(regions);
    forall c | c in chunks ensures c + chunks[c].size <= meta || meta + pages < c {
      var page := if c - 1 <= meta then meta else c - 1;
      assert page < meta + pages ==> P.FreeIn(regions, page);
    }
    forall b | b in direct ensures End(b) <= meta || meta + pages <= b.addr {
      var page := if b.addr <= meta then meta else b.addr;
      assert page < meta + pages ==> P.FreeIn(regions, page);
    }
  }

  lemma EmptyTableLinked(s: State, ch: Chunk)
    requires Structure(s, Nothing) && ch.base !in s.chunks
    requires forall i :: 0 <= i < |ch.slots| ==> ch.slots[i] == SPARE
    ensures Linked(s.lists, s.chunks[ch.base := ch], {})
  {
    var chunks := s.chunks[ch.base := ch];
    assert forall r :: Known(s.chunks, r) ==> Known(chunks, r) && At(chunks, r) == At(s.chunks, r);
    assert forall r :: Known(chunks, r) && !Known(s.chunks, r) ==> At(chunks, r) == SPARE;
  }

  /** The chunks of `s` are still there, with the same extent, behind any new ones. */
  ghost predicate Extends(s: State, t: State) {
    && |s.list| <= |t.list| && t.list[|t.list| - |s.list|..] == s.list
    && forall c :: c in s.chunks ==> c in t.chunks && t.chunks[c].base == s.chunks[c].base && t.chunks[c].size == s.chunks[c].size
  }

  lemma ExtendsTransitive(s: State, t: State, u: State)
    requires Extends(s, t) && Extends(t, u)
    ensures Extends(s, u)
  {
    assert u.list[|u.list| - |s.list|..] == u.list[|u.list| - |t.list|..][|t.list| - |s.list|..];
  }

  lemma NewChunkExtends(s: State, t: State, c: nat, pages: nat)
    requires NewChunk(s, t, c, pages)
    ensures Extends(s, t) && |t.list| == |s.list| + 1
    ensures forall d :: d in t.chunks ==> t.chunks[d].size == if d == c then pages - 1 else if d in s.chunks then s.chunks[d].size else 0
  {
    assert t.list[1..] == s.list;
  }

  /** A chunk whose carve starts with a large enough block makes the order servable. */
  lemma NewChunkServes(s: State, t: State, c: nat, pages: nat, order: nat)
    requires NewChunk(s, t, c, pages) && Structure(t, Nothing) && pages > 0
    requires var b := Carve(c, c + pages - 1, SLOTS_PER_CHUNK); b != [] && order <= b[0].order <= MAX_CHUNK_ORDER
    ensures exists k :: order <= k <= MAX_CHUNK_ORDER && k < |t.lists| && t.lists[k] != []
  {
    hide Structure;
    hide Carve;
    var b := Carve(c, c + pages - 1, SLOTS_PER_CHUNK)[0];
    CarveInRange(c, c + pages - 1, SLOTS_PER_CHUNK);
    var r := Ref(c, 0);
    StructureBasics(t, Nothing);
    assert Known(t.chunks, r) && At(t.chunks, r) == Slot(b.addr, b.order, false);
    assert r in t.lists[b.order];
  }

  lemma SameLiveShape(a: Chunks, b: Chunks)
    requires SameLive(a, b)
    ensures SameShape(a, b)
  {
  }

  lemma BackedShape(a: Chunks, b: Chunks, direct: set<Block>, regions: seq<P.Region>)
    requires SameShape(a, b) && Backed(a, direct, regions)
    ensures Backed(b, direct, regions)
  {
  }

  /** A block whose first page was free in the PMM is not live yet. */
  lemma DirectNotLive(s: State, direct: set<Block>, regions: seq<P.Region>, b: Block)
    requires Structure(s, Nothing) && Good(s, Nothing) && Backed(s.chunks, direct, regions) && P.FreeIn(regions, b.addr)
    ensures b !in direct && !IsLive(s.chunks, b)
  {
    assert Holds(b, b.addr);
    forall r | Known(s.chunks, r) && At(s.chunks, r).Live() ensures At(s.chunks, r).AsBlock() != b {
      assert InBounds(s.chunks[r.chunk], At(s.chunks, r).AsBlock());
    }
  }

  lemma SameLiveReflexive(a: Chunks)
    ensures SameLive(a, a)
  {
  }

  lemma SameLiveTransitive(a: Chunks, b: Chunks, c: Chunks)
    requires SameLive(a, b) && SameLive(b, c)
    ensures SameLive(a, c)
  {
    assert forall r :: Known(a, r) <==> Known(b, r);
    assert forall r :: Known(b, r) <==> Known(c, r);
  }

  /** A free slot with the buddy's block is not the held slot, and is linked in the list of its order. */
  lemma HeldBuddy(s: State, c: nat, held: nat, j: nat)
    requires Structure(s, One(Ref(c, held))) && Known(s.chunks, Ref(c, held)) && Known(s.chunks, Ref(c, j))
    requires var slots := s.chunks[c].slots;
             slots[held].Free() && slots[held].order < MAX_ORDER && !slots[j].inUse && slots[j].AsBlock() == Buddy(slots[held].AsBlock())
    requires s.chunks[c].Has(s.chunks[c].slots[j].addr) && c > 0
    ensures j != held && s.chunks[c].slots[j].Free() && Ref(c, j) in s.lists[s.chunks[c].slots[held].order]
  {
    XorBit(s.chunks[c].slots[held].addr, s.chunks[c].slots[held].order);
  }

  lemma BuddySlots(s: State, c: nat, held: nat, j: nat)
    requires Good(s, One(Ref(c, held))) && Known(s.chunks, Ref(c, held)) && Known(s.chunks, Ref(c, j))
    requires var slots := s.chunks[c].slots;
             slots[held].Free() && slots[held].order < MAX_ORDER && slots[j].Free() && slots[j].AsBlock() == Buddy(slots[held].AsBlock())
    ensures var slots := s.chunks[c].slots;
            if slots[held].addr < slots[j].addr then Mergeable(slots, held, j) else Mergeable(slots, j, held)
  {
    assert InBounds(s.chunks[c], s.chunks[c].slots[held].AsBlock());
    BuddyFacts(s.chunks[c].slots[held].AsBlock());
  }

  /** Chunks may be gone, but those that remain are untouched, and at least two (or all) remain. */
  ghost predicate Shrinks(s: State, t: State) {
    && (forall c :: c in t.chunks ==> c in s.chunks && t.chunks[c] == s.chunks[c] && c in s.lost && c in t.lost && t.lost[c] == s.lost[c])
    && (|t.list| >= MIN_CHUNKS_TO_KEEP || t == s)
  }

  lemma ListedOnce(s: State, i: nat)
    requires Structure(s, Nothing) && i < |s.list|
    ensures forall j :: 0 <= j < |s.list| && j != i ==> s.list[j] != s.list[i]
  {
  }

  /** The pages now free in the PMM are those that were, and those of the chunks that are gone. */
  ghost predicate Returns(a: Snapshot, b: Snapshot) {
    && P.SameLayout(b.regions, a.regions)
    && forall p: nat :: P.FreeIn(b.regions, p) <==> P.FreeIn(a.regions, p) || (Gone(a.s.chunks, b.s.chunks, p) && P.ManagedIn(b.regions, p))
  }

  ghost predicate Gone(a: Chunks, b: Chunks, page: nat) {
    exists c :: c in a && c !in b && c - 1 <= page < c + a[c].size
  }

  lemma ReturnsNothing(a: Snapshot)
    ensures Returns(a, a)
  {
  }

  /** Chunk number `i`, without allocated blocks, went back to the PMM. */
  ghost predicate Dropped(m: Snapshot, b: Snapshot, i: nat) {
    && i < |m.s.list| && m.s.list[i] in m.s.chunks
    && b.direct == m.direct && b.s.lostPages == m.s.lostPages && b.s.list == Without(m.s.list, i)
    && var c := m.s.list[i];
       && b.s.chunks == m.s.chunks - {c} && b.s.lost == m.s.lost - {c}
       && Drift(b.s) == Drift(m.s) && b.s.totalPages - b.s.freePages == m.s.totalPages - m.s.freePages
       && P.SameLayout(b.regions, m.regions)
       && forall p: nat :: P.FreeIn(b.regions, p) <==>
            P.FreeIn(m.regions, p) || (c - 1 <= p < c + m.s.chunks[c].size && P.ManagedIn(b.regions, p))
  }

  /** What dropping idle chunks does to everything but the live blocks. */
  ghost predicate Since(a: Snapshot, b: Snapshot) {
    && b.direct == a.direct && b.s.lostPages == a.s.lostPages && Shrinks(a.s, b.s) && Returns(a, b)
    && Drift(b.s) == Drift(a.s) && b.s.totalPages - b.s.freePages == a.s.totalPages - a.s.freePages
  }

  lemma SinceItself(a: Snapshot)
    requires a.s.lost.Keys == a.s.chunks.Keys
    ensures Since(a, a)
  {
    hide Returns;
    hide Drift;
    ReturnsNothing(a);
  }

  lemma SinceMeans(a: Snapshot, b: Snapshot)
    requires Since(a, b)
    ensures b.direct == a.direct && b.s.lostPages == a.s.lostPages && Shrinks(a.s, b.s) && Returns(a, b)
    ensures Drift(b.s) == Drift(a.s) && b.s.totalPages - b.s.freePages == a.s.totalPages - a.s.freePages
  {
    hide Shrinks;
    hide Returns;
    hide Drift;
  }

  lemma SinceDropped(a: Snapshot, m: Snapshot, b: Snapshot, i: nat)
    requires Since(a, m) && Dropped(m, b, i) && |m.s.list| > MIN_CHUNKS_TO_KEEP && m.s.lost.Keys == m.s.chunks.Keys
    ensures Since(a, b)
  {
    hide Returns;
    hide Drift;
    ReturnsOneMore(a, m, b, m.s.list[i]);
  }

  lemma ReturnsOneMore(a: Snapshot, m: Snapshot, b: Snapshot, c: nat)
    requires Returns(a, m) && c in m.s.chunks && b.s.chunks == m.s.chunks - {c} && P.SameLayout(b.regions, m.regions)
    requires forall d :: d in m.s.chunks ==> d in a.s.chunks && m.s.chunks[d] == a.s.chunks[d]
    requires forall p: nat :: P.FreeIn(b.regions, p) <==> P.FreeIn(m.regions, p) || (c - 1 <= p < c + m.s.chunks[c].size && P.ManagedIn(b.regions, p))
    ensures Returns(a, b)
  {
    P.SameManaged(m.regions, b.regions);
    forall p: nat ensures Gone(a.s.chunks, b.s.chunks, p) <==> Gone(a.s.chunks, m.s.chunks, p) || c - 1 <= p < c + m.s.chunks[c].size {
      if d :| d in a.s.chunks && d !in b.s.chunks && d - 1 <= p < d + a.s.chunks[d].size {
        assert d == c || d !in m.s.chunks;
      }
    }
  }

  /** Giving a chunk back to the PMM leaves the other chunks and the direct blocks backed. */
  lemma BackedDrop(s: State, direct: set<Block>, regions: seq<P.Region>, regions': seq<P.Region>, c: nat)
    requires Structure(s, Nothing) && Good(s, Nothing) && Backed(s.chunks, direct, regions) && c in s.chunks && P.SameLayout(regions', regions)
    requires forall p: nat :: P.FreeIn(regions', p) <==> P.FreeIn(regions, p) || (c - 1 <= p < c + s.chunks[c].size && P.ManagedIn(regions', p))
    ensures Backed(s.chunks - {c}, direct, regions')
  {
    hide Sound;
    P.SameManaged(regions, regions');
    forall d, page: nat | d in s.chunks && d != c && d - 1 <= page < d + s.chunks[d].size ensures !P.FreeIn(regions', page) {
      assert Apart(s.chunks[c], s.chunks[d]);
    }
    forall b, page: nat | b in direct && Holds(b, page) ensures !P.FreeIn(regions', page) {
      assert End(b) < c || c + s.chunks[c].size <= b.addr;
    }
  }

  /** Chunks may be gone; those that remain keep their extent and their losses. */
  ghost predicate Remains(s: State, t: State) {
    forall c :: c in t.chunks ==> c in s.chunks && t.chunks[c].base == s.chunks[c].base && t.chunks[c].size == s.chunks[c].size
                                  && c in s.lost && c in t.lost && t.lost[c] == s.lost[c]
  }

  lemma ShrinksRemains(s: State, t: State, u: State)
    requires Remains(s, t) && Shrinks(t, u)
    ensures Remains(s, u)
  {
  }

  /** In a sound chunk a free buddy lies inside the chunk, so a search of the chunk is enough. */
  lemma NoFreeBuddy(s: State, c: nat, held: nat)
    requires Good(s, One(Ref(c, held))) && Known(s.chunks, Ref(c, held))
    requires var slots := s.chunks[c].slots; slots[held].order < MAX_ORDER && s.chunks[c].Has(Buddy(slots[held].AsBlock()).addr) ==>
               forall j :: 0 <= j < |slots| && slots[j].Free() ==> slots[j].AsBlock() != Buddy(slots[held].AsBlock())
    ensures var slots := s.chunks[c].slots; slots[held].order < MAX_ORDER ==>
              forall j :: 0 <= j < |slots| && slots[j].Free() ==> slots[j].AsBlock() != Buddy(slots[held].AsBlock())
  {
    forall j | 0 <= j < |s.chunks[c].slots| && s.chunks[c].slots[j].Free() ensures InBounds(s.chunks[c], s.chunks[c].slots[j].AsBlock()) {}
  }

  /** A live block is found by its address: its chunk is the only one that holds the page, and its slot
      the only one with that address. */
  lemma LiveSlot(s: State, b: Block)
    requires Structure(s, Nothing) && Good(s, Nothing) && IsLive(s.chunks, b)
    ensures b.order < MAX_ORDER && b.addr > 0
    ensures exists c :: c in s.chunks && s.chunks[c].Has(b.addr)
    ensures forall c :: c in s.chunks && s.chunks[c].Has(b.addr) ==>
              && (exists i :: 0 <= i < |s.chunks[c].slots| && s.chunks[c].slots[i].addr == b.addr)
              && (forall i :: 0 <= i < |s.chunks[c].slots| && s.chunks[c].slots[i].addr == b.addr ==>
                    s.chunks[c].slots[i].Live() && s.chunks[c].slots[i].AsBlock() == b)
  {
    hide Structure;
    hide Good;
    var r :| Known(s.chunks, r) && At(s.chunks, r).Live() && At(s.chunks, r).AsBlock() == b;
    GoodSlot(s, Nothing, r);
    assert s.chunks[r.chunk].Has(b.addr);
    forall c | c in s.chunks && s.chunks[c].Has(b.addr) ensures c == r.chunk {
      if c != r.chunk { GoodApart(s, Nothing, c, r.chunk); }
    }
    var slots := s.chunks[r.chunk].slots;
    forall i | 0 <= i < |slots| && slots[i].addr == b.addr ensures i == r.slot {
      if i != r.slot { GoodPair(s, Nothing, r.chunk, i, r.slot); }
    }
  }

  lemma LiveApartFromDirect(s: State, direct: set<Block>, regions: seq<P.Region>, b: Block)
    requires Structure(s, Nothing) && Good(s, Nothing) && Backed(s.chunks, direct, regions) && b in direct
    ensures !IsLive(s.chunks, b)
  {
    forall r | Known(s.chunks, r) && At(s.chunks, r).Live() ensures At(s.chunks, r).AsBlock() != b {
      assert InBounds(s.chunks[r.chunk], At(s.chunks, r).AsBlock());
    }
  }

  /** The run shares no page with a chunk, its metadata included, or with another block taken from the PMM. */
  ghost predicate Untouched(chunks: Chunks, direct: set<Block>, b: Block) {
    && (forall c :: c in chunks ==> End(b) < c || c + chunks[c].size <= b.addr)
    && (forall d :: d in direct && d != b ==> Disjoint(b, d))
  }

  lemma DirectUntouched(chunks: Chunks, direct: set<Block>, regions: seq<P.Region>, b: Block)
    requires Backed(chunks, direct, regions) && b in direct
    ensures Untouched(chunks, direct, b)
  {
  }

  /** Freeing the pages of a run that touches nothing else leaves the rest backed. */
  lemma BackedWithout(chunks: Chunks, direct: set<Block>, regions: seq<P.Region>, regions': seq<P.Region>, b: Block)
    requires Backed(chunks, direct, regions) && Untouched(chunks, direct, b) && b.addr > 0 && P.SameLayout(regions', regions)
    requires forall p: nat :: P.FreeIn(regions', p) <==> P.FreeIn(regions, p) || (b.addr <= p < End(b) && P.ManagedIn(regions', p))
    ensures Backed(chunks, direct - {b}, regions')
  {
    hide P.FreeIn;
    hide P.ManagedIn;
    P.SameManaged(regions, regions');
    forall c, page: nat | c in chunks && c - 1 <= page < c + chunks[c].size ensures !P.FreeIn(regions', page) {
      assert End(b) < c || c + chunks[c].size <= b.addr;
    }
    forall d, page: nat | d in direct && d != b && Holds(d, page) ensures !P.FreeIn(regions', page) {
      assert Disjoint(b, d);
    }
  }

  /** Freeing a page of a chunk, or of another such block, does not. */
  lemma TouchedNotBacked(chunks: Chunks, direct: set<Block>, regions: seq<P.Region>, regions': seq<P.Region>, b: Block)
    requires Backed(chunks, direct, regions) && !Untouched(chunks, direct, b) && P.SameLayout(regions', regions)
    requires forall p: nat :: P.FreeIn(regions', p) <==> P.FreeIn(regions, p) || (b.addr <= p < End(b) && P.ManagedIn(regions', p))
    ensures !Backed(chunks, direct - {b}, regions')
  {
    hide P.FreeIn;
    hide P.ManagedIn;
    P.SameManaged(regions, regions');
    if c :| c in chunks && !(End(b) < c || c + chunks[c].size <= b.addr) {
      var page := if b.addr < c - 1 then c - 1 else b.addr;
      assert c - 1 <= page < c + chunks[c].size && P.FreeIn(regions', page);
    } else {
      var d :| d in direct && d != b && !Disjoint(b, d);
      var page := if b.addr < d.addr then d.addr else b.addr;
      assert d in direct - {b} && Holds(d, page) && P.FreeIn(regions', page);
    }
  }

  /** Page 0 is in no live block. */
  lemma NullNotLive(s: State, direct: set<Block>, regions: seq<P.Region>, order: nat)
    requires Structure(s, Nothing) && Good(s, Nothing) && Backed(s.chunks, direct, regions)
    ensures !IsLive(s.chunks, Block(0, order)) && Block(0, order) !in direct
  {
    if IsLive(s.chunks, Block(0, order)) { LiveSlot(s, Block(0, order)); }
    DirectOrders(s.chunks, direct, regions);
  }

  lemma DirectRemains(s: State)
    requires Structure(s, Nothing)
    ensures Remains(s, s)
  {
    StructureBasics(s, Nothing);
  }

  /** At most one slot has the address. */
  ghost predicate OneSlot(slots: seq<Slot>, page: nat) {
    forall i, j :: 0 <= i < j < |slots| && slots[i].addr == page ==> slots[j].addr != page
  }

  /** Below order 12 the table decides: the page is in at most one chunk, and a live block of that order
      is exactly a slot in use there with that address and order. */
  lemma SmallLive(s: State, direct: set<Block>, regions: seq<P.Region>, page: nat, order: nat)
    requires Structure(s, Nothing) && Good(s, Nothing) && Backed(s.chunks, direct, regions) && order < MAX_ORDER && page > 0
    ensures Block(page, order) !in direct
    ensures forall c, d :: c in s.chunks && d in s.chunks && s.chunks[c].Has(page) && s.chunks[d].Has(page) ==> c == d
    ensures IsLive(s.chunks, Block(page, order)) ==> exists c :: c in s.chunks && s.chunks[c].Has(page)
    ensures forall c :: c in s.chunks && s.chunks[c].Has(page) ==>
              && (IsLive(s.chunks, Block(page, order)) <==> exists i :: 0 <= i < |s.chunks[c].slots| && s.chunks[c].slots[i] == Slot(page, order, true))
              && OneSlot(s.chunks[c].slots, page)
  {
    hide Structure;
    hide Good;
    DirectOrders(s.chunks, direct, regions);
    forall c, d | c in s.chunks && d in s.chunks && s.chunks[c].Has(page) && s.chunks[d].Has(page) ensures c == d {
      if c != d { GoodApart(s, Nothing, c, d); }
    }
    if IsLive(s.chunks, Block(page, order)) { LiveSlot(s, Block(page, order)); }
    forall c | c in s.chunks && s.chunks[c].Has(page)
      ensures (exists i :: 0 <= i < |s.chunks[c].slots| && s.chunks[c].slots[i] == Slot(page, order, true)) ==> IsLive(s.chunks, Block(page, order))
    {
      if i :| 0 <= i < |s.chunks[c].slots| && s.chunks[c].slots[i] == Slot(page, order, true) {
        assert At(s.chunks, Ref(c, i)).Live() && At(s.chunks, Ref(c, i)).AsBlock() == Block(page, order);
      }
    }
    forall c | c in s.chunks ensures OneSlot(s.chunks[c].slots, page) {
      var slots := s.chunks[c].slots;
      forall i, j | 0 <= i < j < |slots| && slots[i].addr == page ensures slots[j].addr != page {
        if slots[j].addr == page { GoodPair(s, Nothing, c, i, j); }
      }
    }
  }

  lemma BackedWith(chunks: Chunks, direct: set<Block>, regions: seq<P.Region>, b: Block)
    requires Backed(chunks, direct, regions) && b.order >= MAX_ORDER && b.addr > 0
    requires forall page: nat :: Holds(b, page) ==> P.ManagedIn(regions, page) && !P.FreeIn(regions, page)
    requires forall c :: c in chunks ==> c + chunks[c].size <= b.addr || End(b) < c
    requires forall d :: d in direct ==> Disjoint(b, d)
    ensures Backed(chunks, direct + {b}, regions)
  {
  }
}
