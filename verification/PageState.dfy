/** The page allocator's state as one value, its invariants, and the effect on them of
    each primitive step of `page_alloc` and `page_free`.
 */
module PageState {
  import opened Bits
  import opened Dyadic
  import opened PageChunk
  import opened FreeLists

  /** `lost` records, per chunk, the right halves that a split had no slot to track;
      `lostPages` counts every page ever lost that way. */
  datatype State = State(
    lists: seq<seq<Ref>>,
    list: seq<nat>,
    chunks: Chunks,
    totalPages: int,
    freePages: int,
    lost: map<nat, set<Block>>,
    lostPages: nat)

  /** The block, if any, that the running operation has taken off its list. */
  datatype Hold = Nothing | One(r: Ref) {
    function AsSet(): set<Ref> { if One? then {r} else {} }
    function SlotIn(c: nat): int { if One? && r.chunk == c then r.slot else -1 }
  }

  /** What holds in every run, whatever addresses callers hand to `page_free`. */
  ghost predicate Structure(s: State, h: Hold) {
    && |s.lists| == MAX_ORDER + 1
    && s.lost.Keys == s.chunks.Keys
    && NoDup(s.list)
    && (forall c :: c in s.list <==> c in s.chunks)
    && (forall c :: c in s.chunks ==> s.chunks[c].base == c > 0 && s.chunks[c].allocatedBlocks == Sum(s.chunks[c].slots, LiveCount))
    && Linked(s.lists, s.chunks, h.AsSet())
    && s.freePages == Total(s.list, s.chunks, FreeWeight) + s.lostPages
  }

  lemma StructureBasics(s: State, h: Hold)
    requires Structure(s, h)
    ensures |s.lists| == MAX_ORDER + 1 && s.lost.Keys == s.chunks.Keys && Linked(s.lists, s.chunks, h.AsSet())
    ensures forall c :: c in s.list <==> c in s.chunks
    ensures forall c :: c in s.chunks ==> s.chunks[c].base == c > 0
  {
  }

  lemma ChunksListedOnce(s: State, h: Hold)
    requires Structure(s, h)
    ensures NoDup(s.list)
  {
  }

  /** The chunks, each with its page of metadata in front, do not touch. */
  predicate Apart(a: Chunk, b: Chunk) {
    a.base + a.size < b.base || b.base + b.size < a.base
  }

  /** What holds as long as callers free only what they were given. */
  ghost predicate Good(s: State, h: Hold) {
    && s.lost.Keys == s.chunks.Keys
    && (forall c :: c in s.list ==> c in s.chunks)
    && (forall c :: c in s.chunks ==> Sound(s.chunks[c], s.lost[c], h.SlotIn(c)))
    && (forall c, d :: c in s.chunks && d in s.chunks && c != d ==> Apart(s.chunks[c], s.chunks[d]))
    && s.totalPages == Total(s.list, s.chunks, UsedWeight) + s.lostPages
  }

  /** By how much `totalPages` differs from what the tables account for. */
  ghost function Drift(s: State): int {
    if forall c :: c in s.list ==> c in s.chunks
    then s.totalPages - Total(s.list, s.chunks, UsedWeight) - s.lostPages else 0
  }

  lemma GoodDrift(s: State, h: Hold)
    requires Good(s, h)
    ensures Drift(s) == 0
  {
    hide Sound;
    hide Total;
  }

  ghost predicate IsLive(chunks: Chunks, b: Block) {
    exists r :: Known(chunks, r) && At(chunks, r).Live() && At(chunks, r).AsBlock() == b
  }

  /** The same chunks, slot for slot, with the same live blocks. */
  ghost predicate SameShape(a: Chunks, b: Chunks) {
    && a.Keys == b.Keys
    && forall c :: c in a ==> a[c].base == b[c].base && a[c].size == b[c].size && |a[c].slots| == |b[c].slots|
  }

  ghost predicate SameLive(a: Chunks, b: Chunks) {
    && SameShape(a, b)
    && forall r :: Known(a, r) && (At(a, r).Live() || At(b, r).Live()) ==> At(a, r) == At(b, r)
  }

  /** Live blocks of a good state never overlap. */
  lemma LiveDisjoint(s: State, h: Hold, b: Block, c: Block)
    requires Structure(s, h) && Good(s, h) && IsLive(s.chunks, b) && IsLive(s.chunks, c) && b != c
    ensures Disjoint(b, c)
  {
    hide Good;
    hide Structure;
    var p :| Known(s.chunks, p) && At(s.chunks, p).Live() && At(s.chunks, p).AsBlock() == b;
    var q :| Known(s.chunks, q) && At(s.chunks, q).Live() && At(s.chunks, q).AsBlock() == c;
    GoodSlot(s, h, p);
    GoodSlot(s, h, q);
    if p.chunk == q.chunk {
      GoodPair(s, h, p.chunk, p.slot, q.slot);
    } else {
      GoodApart(s, h, p.chunk, q.chunk);
    }
  }

  lemma GoodSlot(s: State, h: Hold, r: Ref)
    requires Good(s, h) && Known(s.chunks, r) && At(s.chunks, r).Used()
    ensures InBounds(s.chunks[r.chunk], At(s.chunks, r).AsBlock()) && s.chunks[r.chunk].base > 0
    ensures At(s.chunks, r).Live() ==> At(s.chunks, r).order <= MAX_CHUNK_ORDER
  {
    assert Sound(s.chunks[r.chunk], s.lost[r.chunk], h.SlotIn(r.chunk));
  }

  lemma GoodParts(s: State, h: Hold, c: nat)
    requires Good(s, h) && c in s.chunks
    ensures s.lost.Keys == s.chunks.Keys && Sound(s.chunks[c], s.lost[c], h.SlotIn(c))
    ensures forall d :: d in s.list ==> d in s.chunks
    ensures s.totalPages == Total(s.list, s.chunks, UsedWeight) + s.lostPages
  {
    hide Sound;
    hide Total;
  }

  lemma StructureParts(s: State, h: Hold, c: nat)
    requires Structure(s, h) && c in s.chunks
    ensures NoDup(s.list) && s.chunks[c].allocatedBlocks == Sum(s.chunks[c].slots, LiveCount)
    ensures s.freePages == Total(s.list, s.chunks, FreeWeight) + s.lostPages
  {
    hide Linked;
    hide Sum;
    hide Total;
  }

  lemma GoodPair(s: State, h: Hold, c: nat, i: nat, j: nat)
    requires Good(s, h) && Known(s.chunks, Ref(c, i)) && Known(s.chunks, Ref(c, j)) && i != j
    requires s.chunks[c].slots[i].Used() && s.chunks[c].slots[j].Used()
    ensures Disjoint(s.chunks[c].slots[i].AsBlock(), s.chunks[c].slots[j].AsBlock())
  {
    assert Sound(s.chunks[c], s.lost[c], h.SlotIn(c));
  }

  lemma GoodApart(s: State, h: Hold, c: nat, d: nat)
    requires Good(s, h) && c in s.chunks && d in s.chunks && c != d
    ensures Apart(s.chunks[c], s.chunks[d])
  {
  }

  // ---------------------------------------------------------------- changing one chunk

  /** `s'` differs from `s` in chunk `c` (not its extent), the lists and the counters. */
  ghost predicate Changes(s: State, s': State, c: nat) {
    && s'.list == s.list && c in s.chunks && c in s'.chunks && c in s'.lost && s'.chunks == s.chunks[c := s'.chunks[c]]
    && s'.chunks[c].base == s.chunks[c].base && s'.chunks[c].size == s.chunks[c].size
    && |s'.chunks[c].slots| == |s.chunks[c].slots|
    && s'.lost == s.lost[c := s'.lost[c]]
  }

  lemma StructureUpdate(s: State, h: Hold, s': State, h': Hold, c: nat)
    requires Structure(s, h) && Changes(s, s', c) && |s'.lists| == MAX_ORDER + 1 && Linked(s'.lists, s'.chunks, h'.AsSet())
    requires s'.chunks[c].allocatedBlocks == Sum(s'.chunks[c].slots, LiveCount)
    requires s'.freePages == Total(s'.list, s'.chunks, FreeWeight) + s'.lostPages
    ensures Structure(s', h')
  {
    hide Linked;
    hide Sum;
    hide Total;
  }

  lemma GoodUpdate(s: State, h: Hold, s': State, h': Hold, c: nat)
    requires Good(s, h) && Changes(s, s', c)
    requires Sound(s'.chunks[c], s'.lost[c], h'.SlotIn(c))
    requires forall d :: d != c ==> h'.SlotIn(d) == h.SlotIn(d)
    requires s'.totalPages == Total(s'.list, s'.chunks, UsedWeight) + s'.lostPages
    ensures Good(s', h')
  {
    hide Sound;
    hide Total;
    forall d | d in s'.chunks && d != c ensures s'.chunks[d] == s.chunks[d] && s'.lost[d] == s.lost[d] {}
    forall d, e | d in s'.chunks && e in s'.chunks && d != e ensures Apart(s'.chunks[d], s'.chunks[e]) {
      assert Apart(s.chunks[d], s.chunks[e]);
    }
  }

  // ---------------------------------------------------------------- split

  function AfterSplit(s: State, r: Ref, j: nat): State
    requires Known(s.chunks, r) && Known(s.chunks, Ref(r.chunk, j)) && r.slot != j
    requires At(s.chunks, r).order > 0 && At(s.chunks, r).order <= |s.lists|
  {
    var b := At(s.chunks, r);
    var q := Ref(r.chunk, j);
    s.(chunks := Put(Put(s.chunks, r, Halved(b)), q, RightHalf(b)),
       lists := s.lists[b.order - 1 := [q] + s.lists[b.order - 1]])
  }

  lemma PutPut(chunks: Chunks, r: Ref, s: Slot, j: nat, t: Slot)
    requires Known(chunks, r) && Known(chunks, Ref(r.chunk, j))
    ensures var ch := chunks[r.chunk];
            Put(Put(chunks, r, s), Ref(r.chunk, j), t) == chunks[r.chunk := ch.(slots := ch.slots[r.slot := s][j := t])]
  {
  }

  lemma SplitStructure(s: State, r: Ref, j: nat)
    requires Structure(s, One(r)) && Known(s.chunks, r) && Known(s.chunks, Ref(r.chunk, j)) && r.slot != j
    requires At(s.chunks, r).Free() && 0 < At(s.chunks, r).order <= MAX_ORDER && !At(s.chunks, Ref(r.chunk, j)).Used()
    ensures Structure(AfterSplit(s, r, j), One(r)) && SameLive(s.chunks, AfterSplit(s, r, j).chunks)
    ensures Known(AfterSplit(s, r, j).chunks, r) && At(AfterSplit(s, r, j).chunks, r) == Halved(At(s.chunks, r))
  {
    hide Structure;
    hide Linked;
    hide Sum;
    hide Total;
    var b := At(s.chunks, r);
    var q := Ref(r.chunk, j);
    var mid := Put(s.chunks, r, Halved(b));
    StructureBasics(s, One(r));
    StructureParts(s, One(r), r.chunk);
    SplitLinked(s, r, j);
    PutPut(s.chunks, r, Halved(b), j, RightHalf(b));
    TotalPut(s.list, s.chunks, r, Halved(b), FreeWeight);
    TotalPut(s.list, mid, q, RightHalf(b), FreeWeight);
    SumPut(s.chunks[r.chunk].slots, r.slot, Halved(b), LiveCount);
    SumPut(mid[r.chunk].slots, j, RightHalf(b), LiveCount);
    StructureUpdate(s, One(r), AfterSplit(s, r, j), One(r), r.chunk);
  }

  lemma ListCount(lists: seq<seq<Ref>>, chunks: Chunks, held: set<Ref>)
    requires Linked(lists, chunks, held)
    ensures |lists| == MAX_ORDER + 1
  {
  }

  lemma SplitLinked(s: State, r: Ref, j: nat)
    requires Linked(s.lists, s.chunks, {r}) && Known(s.chunks, r) && Known(s.chunks, Ref(r.chunk, j)) && r.slot != j
    requires At(s.chunks, r).Free() && 0 < At(s.chunks, r).order <= MAX_ORDER && !At(s.chunks, Ref(r.chunk, j)).Used()
    ensures Linked(AfterSplit(s, r, j).lists, AfterSplit(s, r, j).chunks, {r})
  {
    hide Linked;
    ListCount(s.lists, s.chunks, {r});
    var b := At(s.chunks, r);
    var q := Ref(r.chunk, j);
    var mid := Put(s.chunks, r, Halved(b));
    PutUnlinked(s.lists, s.chunks, {r}, r, Halved(b));
    assert {r} + {r} == {r};
    PutUnlinked(s.lists, mid, {r}, q, RightHalf(b));
    Link(s.lists, Put(mid, q, RightHalf(b)), {r} + {q}, q);
    assert {r} + {q} - {q} == {r};
  }

  lemma SplitGood(s: State, r: Ref, j: nat)
    requires Structure(s, One(r)) && Good(s, One(r)) && Known(s.chunks, r) && Known(s.chunks, Ref(r.chunk, j)) && r.slot != j
    requires At(s.chunks, r).Free() && 0 < At(s.chunks, r).order <= MAX_ORDER && !At(s.chunks, Ref(r.chunk, j)).Used()
    ensures Good(AfterSplit(s, r, j), One(r))
  {
    hide Sound;
    hide Linked;
    hide Sum;
    hide Total;
    var b := At(s.chunks, r);
    var mid := Put(s.chunks, r, Halved(b));
    PutPut(s.chunks, r, Halved(b), j, RightHalf(b));
    SplitSound(s.chunks[r.chunk], s.lost[r.chunk], r.slot, j);
    TotalPut(s.list, s.chunks, r, Halved(b), UsedWeight);
    TotalPut(s.list, mid, Ref(r.chunk, j), RightHalf(b), UsedWeight);
    GoodUpdate(s, One(r), AfterSplit(s, r, j), One(r), r.chunk);
  }

  ghost function AfterLoss(s: State, r: Ref): State
    requires Known(s.chunks, r) && r.chunk in s.lost && At(s.chunks, r).order > 0
  {
    var b := At(s.chunks, r);
    s.(chunks := Put(s.chunks, r, Halved(b)),
       lost := s.lost[r.chunk := s.lost[r.chunk] + {RightHalf(b).AsBlock()}],
       lostPages := s.lostPages + Pow2(b.order - 1))
  }

  lemma LossStructure(s: State, r: Ref)
    requires Structure(s, One(r)) && Known(s.chunks, r) && r.chunk in s.lost
    requires At(s.chunks, r).Free() && 0 < At(s.chunks, r).order <= MAX_ORDER
    ensures Structure(AfterLoss(s, r), One(r)) && SameLive(s.chunks, AfterLoss(s, r).chunks)
  {
    hide Structure;
    hide Linked;
    hide Sum;
    hide Total;
    var b := At(s.chunks, r);
    StructureBasics(s, One(r));
    StructureParts(s, One(r), r.chunk);
    PutUnlinked(s.lists, s.chunks, {r}, r, Halved(b));
    assert {r} + {r} == {r};
    TotalPut(s.list, s.chunks, r, Halved(b), FreeWeight);
    SumPut(s.chunks[r.chunk].slots, r.slot, Halved(b), LiveCount);
    StructureUpdate(s, One(r), AfterLoss(s, r), One(r), r.chunk);
  }

  lemma LossGood(s: State, r: Ref)
    requires Structure(s, One(r)) && Good(s, One(r)) && Known(s.chunks, r) && r.chunk in s.lost
    requires At(s.chunks, r).Free() && 0 < At(s.chunks, r).order <= MAX_ORDER
    ensures Good(AfterLoss(s, r), One(r))
  {
    hide Structure;
    hide Good;
    hide Sound;
    hide Total;
    StructureBasics(s, One(r));
    StructureParts(s, One(r), r.chunk);
    GoodParts(s, One(r), r.chunk);
    TotalPut(s.list, s.chunks, r, Halved(At(s.chunks, r)), UsedWeight);
    SplitLoses(s.chunks[r.chunk], s.lost[r.chunk], r.slot);
    GoodUpdate(s, One(r), AfterLoss(s, r), One(r), r.chunk);
  }

  lemma LossKeeps(s: State, r: Ref)
    requires Structure(s, One(r)) && Good(s, One(r)) && Known(s.chunks, r)
    requires At(s.chunks, r).Free() && 0 < At(s.chunks, r).order <= MAX_ORDER
    ensures Structure(AfterLoss(s, r), One(r)) && Good(AfterLoss(s, r), One(r)) && SameLive(s.chunks, AfterLoss(s, r).chunks)
    ensures Known(AfterLoss(s, r).chunks, r) && At(AfterLoss(s, r).chunks, r) == Halved(At(s.chunks, r))
  {
    hide Structure;
    hide Good;
    GoodParts(s, One(r), r.chunk);
    LossStructure(s, r);
    LossGood(s, r);
  }

  // ---------------------------------------------------------------- take and give back

  /** The held block becomes a live allocation. */
  function AfterTake(s: State, r: Ref): State
    requires Known(s.chunks, r)
  {
    var b := At(s.chunks, r);
    var ch := s.chunks[r.chunk];
    s.(chunks := s.chunks[r.chunk := ch.(slots := ch.slots[r.slot := b.(inUse := true)], allocatedBlocks := ch.allocatedBlocks + 1)],
       freePages := s.freePages - Pow2(b.order))
  }

  lemma TakeStructure(s: State, r: Ref)
    requires Structure(s, One(r)) && Known(s.chunks, r) && At(s.chunks, r).Free()
    ensures Structure(AfterTake(s, r), Nothing)
  {
    hide Structure;
    hide Linked;
    hide Sum;
    hide Total;
    var ch := s.chunks[r.chunk];
    var taken := At(s.chunks, r).(inUse := true);
    var t, put := AfterTake(s, r), Put(s.chunks, r, taken);
    StructureBasics(s, One(r));
    StructureParts(s, One(r), r.chunk);
    PutUnlinked(s.lists, s.chunks, {r}, r, taken);
    assert {r} - {r} == {};
    CounterOnly(s.lists, put, t.chunks, {});
    TotalPut(s.list, s.chunks, r, taken, FreeWeight);
    TotalElsewhere(s.list, put, t.chunks, FreeWeight);
    SumPut(ch.slots, r.slot, taken, LiveCount);
    StructureUpdate(s, One(r), t, Nothing, r.chunk);
  }

  lemma TakeGood(s: State, r: Ref)
    requires Structure(s, One(r)) && Good(s, One(r)) && Known(s.chunks, r) && At(s.chunks, r).Free()
    requires At(s.chunks, r).order <= MAX_CHUNK_ORDER
    ensures Good(AfterTake(s, r), Nothing)
  {
    hide Structure;
    hide Good;
    hide Sound;
    hide Total;
    var ch := s.chunks[r.chunk];
    var taken := At(s.chunks, r).(inUse := true);
    var t, put := AfterTake(s, r), Put(s.chunks, r, taken);
    StructureBasics(s, One(r));
    StructureParts(s, One(r), r.chunk);
    GoodParts(s, One(r), r.chunk);
    TotalPut(s.list, s.chunks, r, taken, UsedWeight);
    TotalElsewhere(s.list, put, t.chunks, UsedWeight);
    TakeSound(ch, s.lost[r.chunk], r.slot);
    CounterSound(put[r.chunk], t.chunks[r.chunk], s.lost[r.chunk], -1);
    GoodUpdate(s, One(r), t, Nothing, r.chunk);
  }

  lemma TakeKeeps(s: State, r: Ref)
    requires Structure(s, One(r)) && Good(s, One(r)) && Known(s.chunks, r) && At(s.chunks, r).Free()
    requires At(s.chunks, r).order <= MAX_CHUNK_ORDER
    ensures Structure(AfterTake(s, r), Nothing) && Good(AfterTake(s, r), Nothing)
    ensures forall b :: IsLive(AfterTake(s, r).chunks, b) <==> IsLive(s.chunks, b) || b == At(s.chunks, r).AsBlock()
    ensures !IsLive(s.chunks, At(s.chunks, r).AsBlock())
    ensures SameShape(s.chunks, AfterTake(s, r).chunks) && Aligned(At(s.chunks, r).AsBlock())
  {
    hide Structure;
    hide Good;
    hide IsLive;
    TakeStructure(s, r);
    TakeGood(s, r);
    LiveAfterPut(s.chunks, AfterTake(s, r).chunks, r);
    LiveIsNotFree(s, One(r), r);
    GoodSlot(s, One(r), r);
  }

  lemma SameLiveBlocks(a: Chunks, b: Chunks)
    requires SameLive(a, b)
    ensures forall x :: IsLive(a, x) <==> IsLive(b, x)
  {
    assert forall r :: Known(a, r) <==> Known(b, r);
    forall x ensures IsLive(a, x) <==> IsLive(b, x) {
      if r :| Known(a, r) && At(a, r).Live() && At(a, r).AsBlock() == x {
        assert At(b, r) == At(a, r);
      }
      if r :| Known(b, r) && At(b, r).Live() && At(b, r).AsBlock() == x {
        assert At(a, r) == At(b, r);
      }
    }
  }

  /** A free block is not live: blocks of distinct slots are disjoint. */
  lemma LiveIsNotFree(s: State, h: Hold, r: Ref)
    requires Structure(s, h) && Good(s, h) && Known(s.chunks, r) && At(s.chunks, r).Free()
    ensures !IsLive(s.chunks, At(s.chunks, r).AsBlock())
  {
    hide Structure;
    hide Good;
    hide Pow2;
    var b := At(s.chunks, r).AsBlock();
    GoodSlot(s, h, r);
    forall p | Known(s.chunks, p) && At(s.chunks, p).Live() ensures At(s.chunks, p).AsBlock() != b {
      GoodSlot(s, h, p);
      if p.chunk == r.chunk {
        GoodPair(s, h, p.chunk, p.slot, r.slot);
      } else {
        GoodApart(s, h, p.chunk, r.chunk);
      }
    }
  }

  /** Only the counters differ between the two tables. */
  ghost predicate SameSlots(a: Chunks, b: Chunks) {
    SameShape(a, b) && forall c :: c in a ==> a[c].slots == b[c].slots
  }

  lemma CounterOnly(lists: seq<seq<Ref>>, a: Chunks, b: Chunks, held: set<Ref>)
    requires Linked(lists, a, held) && SameSlots(a, b)
    ensures Linked(lists, b, held)
  {
    assert forall r :: Known(a, r) <==> Known(b, r);
    assert forall r :: Known(a, r) ==> At(a, r) == At(b, r);
  }

  lemma CounterSound(a: Chunk, b: Chunk, lost: set<Block>, held: int)
    requires Sound(a, lost, held) && a.base == b.base && a.size == b.size && a.slots == b.slots
    ensures Sound(b, lost, held)
  {
    assert Carved(a) == Carved(b);
  }

  lemma LiveAfterPut(a: Chunks, b: Chunks, r: Ref)
    requires SameShape(a, b) && Known(a, r) && !At(a, r).Live() && At(b, r).Live()
    requires forall q :: Known(a, q) && q != r ==> At(a, q) == At(b, q)
    ensures forall x :: IsLive(b, x) <==> IsLive(a, x) || x == At(b, r).AsBlock()
  {
    assert forall q :: Known(a, q) <==> Known(b, q);
    forall x ensures IsLive(b, x) <==> IsLive(a, x) || x == At(b, r).AsBlock() {
      if IsLive(a, x) {
        var q :| Known(a, q) && At(a, q).Live() && At(a, q).AsBlock() == x;
        assert At(b, q).Live() && At(b, q).AsBlock() == x;
      }
      if IsLive(b, x) && x != At(b, r).AsBlock() {
        var q :| Known(b, q) && At(b, q).Live() && At(b, q).AsBlock() == x;
        assert At(a, q).Live() && At(a, q).AsBlock() == x;
      }
    }
  }

  /** A live block is handed back with the given order; it is then held. */
  function AfterReturn(s: State, r: Ref, order: nat): State
    requires Known(s.chunks, r)
  {
    var ch := s.chunks[r.chunk];
    s.(chunks := s.chunks[r.chunk := ch.(slots := ch.slots[r.slot := Slot(ch.slots[r.slot].addr, order, false)],
                                         allocatedBlocks := ch.allocatedBlocks - 1)],
       freePages := s.freePages + Pow2(order))
  }

  lemma ReturnStructure(s: State, r: Ref, order: nat)
    requires Structure(s, Nothing) && Known(s.chunks, r) && At(s.chunks, r).Live()
    ensures Structure(AfterReturn(s, r, order), One(r))
  {
    hide Linked;
    hide Sum;
    hide Total;
    var ch := s.chunks[r.chunk];
    var back := Slot(ch.slots[r.slot].addr, order, false);
    var t := AfterReturn(s, r, order);
    var put := Put(s.chunks, r, back);
    PutUnlinked(s.lists, s.chunks, {}, r, back);
    assert {} + {r} == {r};
    CounterOnly(s.lists, put, t.chunks, {r});
    TotalPut(s.list, s.chunks, r, back, FreeWeight);
    TotalElsewhere(s.list, put, t.chunks, FreeWeight);
    SumPut(ch.slots, r.slot, back, LiveCount);
    StructureUpdate(s, Nothing, t, One(r), r.chunk);
  }

  lemma ReturnGood(s: State, r: Ref)
    requires Structure(s, Nothing) && Good(s, Nothing) && Known(s.chunks, r) && At(s.chunks, r).Live()
    ensures var t := AfterReturn(s, r, At(s.chunks, r).order);
            && Good(t, One(r)) && SameShape(s.chunks, t.chunks)
            && forall b :: IsLive(t.chunks, b) <==> IsLive(s.chunks, b) && b != At(s.chunks, r).AsBlock()
  {
    hide Structure;
    hide Good;
    hide Sound;
    hide Linked;
    hide Sum;
    hide Total;
    hide IsLive;
    var ch := s.chunks[r.chunk];
    var b := At(s.chunks, r);
    var back := b.(inUse := false);
    var t := AfterReturn(s, r, b.order);
    var put := Put(s.chunks, r, back);
    StructureBasics(s, Nothing);
    StructureParts(s, Nothing, r.chunk);
    GoodParts(s, Nothing, r.chunk);
    TotalPut(s.list, s.chunks, r, back, UsedWeight);
    TotalElsewhere(s.list, put, t.chunks, UsedWeight);
    ReturnSound(ch, s.lost[r.chunk], r.slot);
    CounterSound(put[r.chunk], t.chunks[r.chunk], s.lost[r.chunk], r.slot);
    GoodUpdate(s, Nothing, t, One(r), r.chunk);
    LiveAfterPut(t.chunks, s.chunks, r);
    ReturnStructure(s, r, b.order);
    LiveIsNotFree(t, One(r), r);
  }

  /** Handing a block back with another order shifts the account by the difference. */
  lemma ReturnDrift(s: State, r: Ref, order: nat)
    requires Structure(s, Nothing) && Known(s.chunks, r) && At(s.chunks, r).Live()
    ensures Drift(AfterReturn(s, r, order)) == Drift(s) + Pow2(At(s.chunks, r).order) - Pow2(order)
  {
    hide Structure;
    hide Linked;
    hide Sum;
    hide Total;
    StructureBasics(s, Nothing);
    ChunksListedOnce(s, Nothing);
    var back := Slot(At(s.chunks, r).addr, order, false);
    var t := AfterReturn(s, r, order);
    TotalPut(s.list, s.chunks, r, back, UsedWeight);
    TotalElsewhere(s.list, Put(s.chunks, r, back), t.chunks, UsedWeight);
  }

  /** A spare slot made to track an allocation the table knew nothing of. */
  function AfterInvent(s: State, r: Ref, page: nat, order: nat): State
    requires Known(s.chunks, r)
  {
    var ch := s.chunks[r.chunk];
    s.(chunks := s.chunks[r.chunk := ch.(slots := ch.slots[r.slot := Slot(page, order, true)], allocatedBlocks := ch.allocatedBlocks + 1)])
  }

  lemma InventStructure(s: State, r: Ref, page: nat, order: nat)
    requires Structure(s, Nothing) && Known(s.chunks, r) && !At(s.chunks, r).Used() && page > 0
    ensures Structure(AfterInvent(s, r, page, order), Nothing)
  {
    hide Linked;
    hide Sum;
    hide Total;
    var ch := s.chunks[r.chunk];
    var made := Slot(page, order, true);
    var t := AfterInvent(s, r, page, order);
    var put := Put(s.chunks, r, made);
    PutUnlinked(s.lists, s.chunks, {}, r, made);
    assert {} - {r} == {};
    CounterOnly(s.lists, put, t.chunks, {});
    TotalPut(s.list, s.chunks, r, made, FreeWeight);
    TotalElsewhere(s.list, put, t.chunks, FreeWeight);
    SumPut(ch.slots, r.slot, made, LiveCount);
    StructureUpdate(s, Nothing, t, Nothing, r.chunk);
  }

  /** Tracking what was never allocated takes it out of the account. */
  lemma InventDrift(s: State, r: Ref, page: nat, order: nat)
    requires Structure(s, Nothing) && Known(s.chunks, r) && !At(s.chunks, r).Used() && page > 0
    ensures Drift(AfterInvent(s, r, page, order)) == Drift(s) - Pow2(order)
  {
    hide Structure;
    hide Linked;
    hide Sum;
    hide Total;
    StructureBasics(s, Nothing);
    ChunksListedOnce(s, Nothing);
    var made := Slot(page, order, true);
    var t := AfterInvent(s, r, page, order);
    TotalPut(s.list, s.chunks, r, made, UsedWeight);
    TotalElsewhere(s.list, Put(s.chunks, r, made), t.chunks, UsedWeight);
  }

  // ---------------------------------------------------------------- merge and release

  /** The block in slot `l` absorbs the one in slot `r`; whichever of the two was linked is unlinked
      from position `i` of its list. */
  function AfterMerge(s: State, c: nat, l: nat, r: nat, i: nat): State
    requires Known(s.chunks, Ref(c, l)) && Known(s.chunks, Ref(c, r))
    requires s.chunks[c].slots[l].order < |s.lists| && i < |s.lists[s.chunks[c].slots[l].order]|
  {
    var b := s.chunks[c].slots[l];
    s.(chunks := Put(Put(s.chunks, Ref(c, l), b.(order := b.order + 1)), Ref(c, r), SPARE),
       lists := s.lists[b.order := Without(s.lists[b.order], i)])
  }

  /** `a` is the held slot and `b` the linked one; together they are `l` and `r`. */
  ghost predicate MergeArgs(s: State, c: nat, a: nat, b: nat, l: nat, r: nat, i: nat) {
    && Known(s.chunks, Ref(c, l)) && Known(s.chunks, Ref(c, r)) && l != r
    && ((a == l && b == r) || (a == r && b == l))
    && s.chunks[c].slots[l].Free() && s.chunks[c].slots[r].Free()
    && s.chunks[c].slots[l].order == s.chunks[c].slots[r].order < MAX_ORDER
    && |s.lists| == MAX_ORDER + 1
    && i < |s.lists[s.chunks[c].slots[l].order]| && s.lists[s.chunks[c].slots[l].order][i] == Ref(c, b)
  }

  lemma MergeLinked(s: State, c: nat, a: nat, b: nat, l: nat, r: nat, i: nat)
    requires MergeArgs(s, c, a, b, l, r, i) && Linked(s.lists, s.chunks, {Ref(c, a)})
    ensures Linked(AfterMerge(s, c, l, r, i).lists, AfterMerge(s, c, l, r, i).chunks, {Ref(c, l)})
  {
    var k := s.chunks[c].slots[l].order;
    var x, y := Ref(c, l), Ref(c, r);
    Unlink(s.lists, s.chunks, {Ref(c, a)}, k, i);
    var lists := s.lists[k := Without(s.lists[k], i)];
    assert {Ref(c, a)} + {Ref(c, b)} == {x, y};
    var wider := s.chunks[c].slots[l].(order := k + 1);
    PutUnlinked(lists, s.chunks, {x, y}, x, wider);
    assert {x, y} + {x} == {x, y};
    PutUnlinked(lists, Put(s.chunks, x, wider), {x, y}, y, SPARE);
    assert {x, y} - {y} == {x};
  }

  lemma MergeStructure(s: State, c: nat, a: nat, b: nat, l: nat, r: nat, i: nat)
    requires Structure(s, One(Ref(c, a))) && MergeArgs(s, c, a, b, l, r, i)
    ensures Structure(AfterMerge(s, c, l, r, i), One(Ref(c, l)))
    ensures SameLive(s.chunks, AfterMerge(s, c, l, r, i).chunks)
  {
    hide Linked;
    hide Sum;
    hide Total;
    var t := AfterMerge(s, c, l, r, i);
    var left := s.chunks[c].slots[l];
    var wider := left.(order := left.order + 1);
    var mid := Put(s.chunks, Ref(c, l), wider);
    MergeLinked(s, c, a, b, l, r, i);
    PutPut(s.chunks, Ref(c, l), wider, r, SPARE);
    TotalPut(s.list, s.chunks, Ref(c, l), wider, FreeWeight);
    TotalPut(s.list, mid, Ref(c, r), SPARE, FreeWeight);
    SumPut(s.chunks[c].slots, l, wider, LiveCount);
    SumPut(mid[c].slots, r, SPARE, LiveCount);
    StructureUpdate(s, One(Ref(c, a)), t, One(Ref(c, l)), c);
  }

  lemma MergeGood(s: State, c: nat, a: nat, b: nat, l: nat, r: nat, i: nat)
    requires Structure(s, One(Ref(c, a))) && Good(s, One(Ref(c, a))) && MergeArgs(s, c, a, b, l, r, i)
    requires Mergeable(s.chunks[c].slots, l, r)
    ensures Good(AfterMerge(s, c, l, r, i), One(Ref(c, l)))
  {
    hide Structure;
    hide Good;
    hide Sound;
    hide Sum;
    hide Total;
    hide Linked;
    hide NoDup;
    StructureBasics(s, One(Ref(c, a)));
    ChunksListedOnce(s, One(Ref(c, a)));
    GoodParts(s, One(Ref(c, a)), c);
    PutPut(s.chunks, Ref(c, l), s.chunks[c].slots[l].(order := s.chunks[c].slots[l].order + 1), r, SPARE);
    MergeTotal(s, c, l, r);
    MergeSound(s.chunks[c], s.lost[c], a, l, r);
    GoodUpdate(s, One(Ref(c, a)), AfterMerge(s, c, l, r, i), One(Ref(c, l)), c);
  }

  /** Merging two free blocks of one order leaves the tracked pages as they are. */
  lemma MergeTotal(s: State, c: nat, l: nat, r: nat)
    requires Known(s.chunks, Ref(c, l)) && Known(s.chunks, Ref(c, r)) && l != r && c in s.list
    requires s.chunks[c].slots[l].Free() && s.chunks[c].slots[r].Free() && s.chunks[c].slots[l].order == s.chunks[c].slots[r].order
    requires NoDup(s.list) && forall d :: d in s.list ==> d in s.chunks
    ensures Total(s.list, s.chunks[c := s.chunks[c].(slots := Merge(s.chunks[c].slots, l, r))], UsedWeight) == Total(s.list, s.chunks, UsedWeight)
  {
    hide Sum;
    hide Total;
    var left := s.chunks[c].slots[l];
    var wider := left.(order := left.order + 1);
    var mid := Put(s.chunks, Ref(c, l), wider);
    PutPut(s.chunks, Ref(c, l), wider, r, SPARE);
    TotalPut(s.list, s.chunks, Ref(c, l), wider, UsedWeight);
    TotalPut(s.list, mid, Ref(c, r), SPARE, UsedWeight);
  }

  lemma MergeDrift(s: State, c: nat, a: nat, b: nat, l: nat, r: nat, i: nat)
    requires Structure(s, One(Ref(c, a))) && MergeArgs(s, c, a, b, l, r, i)
    ensures Drift(AfterMerge(s, c, l, r, i)) == Drift(s)
  {
    hide Structure;
    hide Linked;
    hide Sum;
    hide Total;
    StructureBasics(s, One(Ref(c, a)));
    ChunksListedOnce(s, One(Ref(c, a)));
    PutPut(s.chunks, Ref(c, l), s.chunks[c].slots[l].(order := s.chunks[c].slots[l].order + 1), r, SPARE);
    MergeTotal(s, c, l, r);
  }

  /** The block at position `i` of list `k` is taken off and held. */
  function AfterUnlink(s: State, k: nat, i: nat): State
    requires k < |s.lists| && i < |s.lists[k]|
  {
    s.(lists := s.lists[k := Without(s.lists[k], i)])
  }

  lemma UnlinkKeeps(s: State, k: nat, i: nat)
    requires Structure(s, Nothing) && Good(s, Nothing) && k < |s.lists| && i < |s.lists[k]|
    ensures var r := s.lists[k][i];
            && Structure(AfterUnlink(s, k, i), One(r)) && Good(AfterUnlink(s, k, i), One(r))
            && Known(s.chunks, r) && At(s.chunks, r).Free() && At(s.chunks, r).order == k
  {
    hide Good;
    UnlinkStructure(s, k, i);
    UnlinkGood(s, k, i);
  }

  lemma UnlinkStructure(s: State, k: nat, i: nat)
    requires Structure(s, Nothing) && k < |s.lists| && i < |s.lists[k]|
    ensures var r := s.lists[k][i];
            Structure(AfterUnlink(s, k, i), One(r)) && Known(s.chunks, r) && At(s.chunks, r).Free() && At(s.chunks, r).order == k
  {
    hide Sum;
    hide Total;
    var r := s.lists[k][i];
    Unlink(s.lists, s.chunks, {}, k, i);
    assert {} + {r} == {r};
    assert r in s.lists[k];
  }

  lemma UnlinkGood(s: State, k: nat, i: nat)
    requires Good(s, Nothing) && k < |s.lists| && i < |s.lists[k]| && Known(s.chunks, s.lists[k][i])
    ensures Good(AfterUnlink(s, k, i), One(s.lists[k][i]))
  {
    hide Sum;
    hide Total;
    var r := s.lists[k][i];
    GoodUpdate(s, Nothing, AfterUnlink(s, k, i), One(r), r.chunk);
  }

  function AfterLink(s: State, r: Ref): State
    requires Known(s.chunks, r) && At(s.chunks, r).order < |s.lists|
  {
    var k := At(s.chunks, r).order;
    s.(lists := s.lists[k := [r] + s.lists[k]])
  }

  lemma LinkStructure(s: State, r: Ref)
    requires Structure(s, One(r)) && Known(s.chunks, r) && At(s.chunks, r).Free() && At(s.chunks, r).order <= MAX_ORDER
    ensures Structure(AfterLink(s, r), Nothing)
  {
    Link(s.lists, s.chunks, {r}, r);
    assert {r} - {r} == {};
  }

  lemma LinkGood(s: State, r: Ref)
    requires Good(s, One(r)) && Known(s.chunks, r) && At(s.chunks, r).Free() && At(s.chunks, r).order < |s.lists|
    requires var slots := s.chunks[r.chunk].slots; At(s.chunks, r).order < MAX_ORDER ==>
               forall j :: 0 <= j < |slots| && slots[j].Free() ==> slots[j].AsBlock() != Buddy(slots[r.slot].AsBlock())
    ensures Good(AfterLink(s, r), Nothing)
  {
    hide Sound;
    ReleaseHeld(s.chunks[r.chunk], s.lost[r.chunk], r.slot);
    GoodUpdate(s, One(r), AfterLink(s, r), Nothing, r.chunk);
  }

  // ---------------------------------------------------------------- whole chunks

  /** A new chunk enters at the head of the list. */
  ghost function AfterAdd(s: State, lists: seq<seq<Ref>>, ch: Chunk): State {
    s.(lists := lists,
       list := [ch.base] + s.list,
       chunks := s.chunks[ch.base := ch],
       totalPages := s.totalPages + Sum(ch.slots, UsedWeight),
       freePages := s.freePages + Sum(ch.slots, FreeWeight),
       lost := s.lost[ch.base := {}])
  }

  lemma AddTotal(s: State, ch: Chunk, w: Slot -> int)
    requires ch.base !in s.chunks && forall c :: c in s.list ==> c in s.chunks
    ensures Total([ch.base] + s.list, s.chunks[ch.base := ch], w) == Total(s.list, s.chunks, w) + Sum(ch.slots, w)
  {
    assert ([ch.base] + s.list)[1..] == s.list;
    TotalElsewhere(s.list, s.chunks, s.chunks[ch.base := ch], w);
  }

  lemma AddStructure(s: State, lists: seq<seq<Ref>>, ch: Chunk)
    requires Structure(s, Nothing) && ch.base !in s.chunks
    requires |lists| == MAX_ORDER + 1 && Linked(lists, s.chunks[ch.base := ch], {})
    requires ch.base > 0 && ch.allocatedBlocks == 0 == Sum(ch.slots, LiveCount)
    ensures Structure(AfterAdd(s, lists, ch), Nothing)
  {
    hide Linked;
    hide Sum;
    hide Total;
    AddTotal(s, ch, FreeWeight);
  }

  lemma AddGood(s: State, lists: seq<seq<Ref>>, ch: Chunk)
    requires Structure(s, Nothing) && Good(s, Nothing) && ch.base !in s.chunks
    requires Sound(ch, {}, -1)
    requires forall d :: d in s.chunks ==> Apart(s.chunks[d], ch)
    ensures Good(AfterAdd(s, lists, ch), Nothing)
  {
    hide Sound;
    hide Linked;
    hide Sum;
    hide Total;
    AddTotal(s, ch, UsedWeight);
  }

  /** Chunk number `i` of the list, which has no live block, is dropped with all its blocks. */
  ghost function AfterDrop(s: State, lists: seq<seq<Ref>>, i: nat): State
    requires i < |s.list| && s.list[i] in s.chunks
  {
    var c := s.list[i];
    s.(lists := lists,
       list := Without(s.list, i),
       chunks := s.chunks - {c},
       totalPages := s.totalPages - Sum(s.chunks[c].slots, FreeWeight),
       freePages := s.freePages - Sum(s.chunks[c].slots, FreeWeight),
       lost := s.lost - {c})
  }

  /** The free blocks of one chunk, in its first `n` slots. */
  ghost function FreeRefs(chunks: Chunks, c: nat, n: nat): set<Ref>
    requires c in chunks && n <= |chunks[c].slots|
  {
    set j | 0 <= j < n && chunks[c].slots[j].Free() :: Ref(c, j)
  }

  lemma DropLinked(lists: seq<seq<Ref>>, chunks: Chunks, c: nat)
    requires c in chunks && Linked(lists, chunks, FreeRefs(chunks, c, |chunks[c].slots|))
    ensures Linked(lists, chunks - {c}, {})
  {
    var rest := chunks - {c};
    assert forall r :: Known(rest, r) <==> Known(chunks, r) && r.chunk != c;
    assert forall r :: Known(rest, r) ==> At(rest, r) == At(chunks, r);
    forall r | Known(chunks, r) && At(chunks, r).Free() && r.chunk == c ensures r in FreeRefs(chunks, c, |chunks[c].slots|) {
      assert r == Ref(c, r.slot);
    }
  }

  lemma DropStructure(s: State, lists: seq<seq<Ref>>, i: nat)
    requires Structure(s, Nothing) && i < |s.list| && |lists| == MAX_ORDER + 1
    requires Linked(lists, s.chunks - {s.list[i]}, {})
    ensures Structure(AfterDrop(s, lists, i), Nothing)
  {
    hide Linked;
    hide Sum;
    hide Total;
    var c := s.list[i];
    var t := AfterDrop(s, lists, i);
    WithoutFacts(s.list, i);
    TotalWithout(s.list, s.chunks, i, FreeWeight);
    TotalElsewhere(t.list, s.chunks, t.chunks, FreeWeight);
  }

  lemma WithoutFacts(list: seq<nat>, i: nat)
    requires NoDup(list) && i < |list|
    ensures NoDup(Without(list, i))
    ensures forall d :: d in Without(list, i) <==> d in list && d != list[i]
  {
    var w := Without(list, i);
    assert forall j :: 0 <= j < |w| ==> w[j] == list[if j < i then j else j + 1];
    forall d | d in list && d != list[i] ensures d in w {
      var j :| 0 <= j < |list| && list[j] == d;
      assert w[if j < i then j else j - 1] == d;
    }
  }

  lemma DropGood(s: State, lists: seq<seq<Ref>>, i: nat)
    requires Structure(s, Nothing) && Good(s, Nothing) && i < |s.list|
    requires s.chunks[s.list[i]].allocatedBlocks == 0
    ensures Good(AfterDrop(s, lists, i), Nothing)
    ensures forall b :: IsLive(AfterDrop(s, lists, i).chunks, b) <==> IsLive(s.chunks, b)
  {
    hide Sound;
    hide Linked;
    hide Sum;
    hide Total;
    var c := s.list[i];
    var t := AfterDrop(s, lists, i);
    WithoutFacts(s.list, i);
    TotalWithout(s.list, s.chunks, i, UsedWeight);
    TotalElsewhere(t.list, s.chunks, t.chunks, UsedWeight);
    SumLive(s.chunks[c].slots);
    SumSame(s.chunks[c].slots, UsedWeight, FreeWeight);
    forall b ensures IsLive(t.chunks, b) <==> IsLive(s.chunks, b) {
      LiveElsewhere(s.chunks, c, b);
    }
  }

  /** Dropping a chunk without live blocks leaves the account of the others. */
  lemma DropDrift(s: State, lists: seq<seq<Ref>>, i: nat)
    requires Structure(s, Nothing) && i < |s.list| && s.chunks[s.list[i]].allocatedBlocks == 0
    ensures Drift(AfterDrop(s, lists, i)) == Drift(s)
  {
    hide Linked;
    hide Sum;
    hide Total;
    var c := s.list[i];
    var t := AfterDrop(s, lists, i);
    WithoutFacts(s.list, i);
    TotalWithout(s.list, s.chunks, i, UsedWeight);
    TotalElsewhere(t.list, s.chunks, t.chunks, UsedWeight);
    SumLive(s.chunks[c].slots);
    SumSame(s.chunks[c].slots, UsedWeight, FreeWeight);
  }

  lemma LiveElsewhere(chunks: Chunks, c: nat, b: Block)
    requires c in chunks && forall j :: 0 <= j < |chunks[c].slots| ==> !chunks[c].slots[j].Live()
    ensures IsLive(chunks - {c}, b) <==> IsLive(chunks, b)
  {
    if r :| Known(chunks, r) && At(chunks, r).Live() && At(chunks, r).AsBlock() == b {
      assert Known(chunks - {c}, r) && At(chunks - {c}, r) == At(chunks, r);
    }
    if r :| Known(chunks - {c}, r) && At(chunks - {c}, r).Live() && At(chunks - {c}, r).AsBlock() == b {
      assert Known(chunks, r) && At(chunks, r) == At(chunks - {c}, r);
    }
  }

  /** Unlinking one more block of a chunk that is being emptied. */
  lemma DropNext(lists: seq<seq<Ref>>, chunks: Chunks, c: nat, n: nat)
    requires c in chunks && n < |chunks[c].slots| && Linked(lists, chunks, FreeRefs(chunks, c, n))
    ensures !chunks[c].slots[n].Free() ==> FreeRefs(chunks, c, n + 1) == FreeRefs(chunks, c, n)
    ensures chunks[c].slots[n].Free() ==>
              var k := chunks[c].slots[n].order;
              && k < |lists| && Ref(c, n) in lists[k]
              && forall i :: 0 <= i < |lists[k]| && lists[k][i] == Ref(c, n) ==>
                   Linked(lists[k := Without(lists[k], i)], chunks, FreeRefs(chunks, c, n + 1))
  {
    if chunks[c].slots[n].Free() {
      var k := chunks[c].slots[n].order;
      var held := FreeRefs(chunks, c, n);
      assert Known(chunks, Ref(c, n)) && Ref(c, n) !in held;
      assert FreeRefs(chunks, c, n + 1) == held + {Ref(c, n)};
      forall i | 0 <= i < |lists[k]| && lists[k][i] == Ref(c, n)
        ensures Linked(lists[k := Without(lists[k], i)], chunks, FreeRefs(chunks, c, n + 1))
      {
        Unlink(lists, chunks, held, k, i);
      }
    }
  }
}
