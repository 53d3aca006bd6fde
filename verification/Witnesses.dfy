/** Concrete inputs at which the code departs from its evident intent: states as values, and short runs.

    A run can stop early where an allocation fails; its contract then says nothing.
 */
module Witnesses {
  import opened Bits
  import opened Options
  import D = Dyadic
  import P = Pmm
  import A = PageAlloc
  import C = PageChunk
  import G = PageState
  import T = PageTable
  import W = TableWalk
  import V = Vmm
  import N = RadixNodes
  import R = Radix
  import Y = SlabLayout
  import S = Slab
  import L = SlabLookup
  import I = IrqState
  import M = IrqMappings
  import Q = IrqDomain
  import K = MsiState
  import X = Msi

  // -------------------------------------------------------------- page allocator

  /** The table of a chunk of 16 MB at page 4096, as carved: two buddies of order 11. */
  function PairTable(): C.Chunk {
    C.Chunk(4096, 4096, seq(126, i => if i == 0 then C.Slot(4096, 11, false) else if i == 1 then C.Slot(6144, 11, false) else C.SPARE), 0)
  }

  lemma TwoTopBlocks()
    ensures C.Carve(4096, 8192, 126) == [D.Block(4096, 11), D.Block(6144, 11)]
    ensures D.Buddy(D.Block(4096, 11)) == D.Block(6144, 11)
  {
    assert Pow2(11) == 2048;
    BitOfMultiple(2, 11);
    XorBit(4096, 11);
    C.CarveStep(4096, 8192, 126);
    C.CarveStep(6144, 8192, 125);
    assert C.Carve(8192, 8192, 124) == [];
  }

  /** Allocating and freeing one of them merges the pair, and the chunk no longer holds what it was carved into. */
  lemma ConfluenceWitness()
    ensures var ch := PairTable();
            var used := ch.slots[0 := C.Slot(4096, 11, true)];
            var after := ch.(slots := C.Merge(used[0 := C.Slot(4096, 11, false)], 0, 1));
            && C.FreshlyCarved(ch) && C.Sound(after, {}, -1) && (forall i :: 0 <= i < |after.slots| ==> !after.slots[i].Live())
            && D.Block(4096, 12) in C.FreeBlocks(after.slots) && C.FreeBlocks(after.slots) != C.Carved(after)
  {
    hide C.Carve;
    hide Pow2;
    hide C.Sound;
    hide D.Buddy;
    var ch := PairTable();
    TwoTopBlocks();
    assert C.FreshlyCarved(ch);
    C.CarveSound(ch);
    C.SoundHeld(ch, {}, 0);
    C.MergeSound(ch, {}, 0, 0, 1);
    assert ch.slots[0 := C.Slot(4096, 11, true)][0 := C.Slot(4096, 11, false)] == ch.slots;
    var after := ch.(slots := C.Merge(ch.slots, 0, 1));
    C.ReleaseHeld(after, {}, 0);
    assert after.slots[0].AsBlock() in C.FreeBlocks(after.slots);
    C.SameCarve(ch, after.slots);
  }

  /** A chunk whose 126 slots are all in use: one free block of two pages and live blocks for the rest. */
  function FullTable(): C.Chunk {
    C.Chunk(128, 128, seq(126, (i: nat) =>
      if i == 0 then C.Slot(128, 1, false) else if i == 125 then C.Slot(254, 1, true) else C.Slot(129 + i, 0, true)), 125)
  }

  /** 128 pages from page 128 on hold a block of order 7 and none larger. */
  lemma OrderSeven()
    ensures C.BestOrder(128, 256, 11) == 7
  {
    hide C.BestOrder;
    hide C.Fits;
    NotAbove(C.BestOrder(128, 256, 11));
    assert C.Fits(128, 256, 7) by { NotAbove(7); }
  }

  lemma NotAbove(k: nat)
    ensures k > 7 ==> !C.Fits(128, 256, k)
    ensures k == 7 ==> C.Fits(128, 256, k)
  {
    hide AlignUp;
    assert Pow2(7) == 128 && Pow2(8) == 256;
    if k > 7 { Pow2Monotone(8, k); }
    AlignUpFacts(128, Pow2(k));
    if k == 7 { AlignUpLeast(128, 128, 128); }
  }

  lemma OneBlock()
    ensures C.Carve(128, 256, 126) == [D.Block(128, 7)]
  {
    hide C.BestOrder;
    hide AlignUp;
    hide C.Carve;
    assert Pow2(7) == 128;
    OrderSeven();
    AlignUpFacts(128, 128);
    AlignUpLeast(128, 128, 128);
    C.CarveStep(128, 256, 126);
    C.CarveStep(256, 256, 125);
  }

  lemma FullTableExtent()
    ensures FullTable().base == FullTable().size == 128 && |FullTable().slots| == 126
  {
  }

  lemma OneCarved()
    ensures C.Carved(FullTable()) == {D.Block(128, 7)}
    ensures forall page: nat :: D.Holds(D.Block(128, 7), page) <==> 128 <= page < 256
  {
    hide C.Carve;
    hide FullTable;
    assert Pow2(7) == 128;
    FullTableExtent();
    OneBlock();
    var c := C.Carve(128, 256, 126);
    assert c[0] == D.Block(128, 7);
  }

  lemma FullTableSound()
    ensures C.Sound(FullTable(), {}, 0)
  {
    hide C.Carved;
    var ch := FullTable();
    SmallSlots();
    OneCarved();
    forall page: nat ensures D.Covered(C.Carved(ch), page) <==> C.Tracked(ch.slots, page) {
      assert D.Covered({D.Block(128, 7)}, page) <==> 128 <= page < 256 by {
        assert D.Block(128, 7) in {D.Block(128, 7)};
      }
      if 128 <= page < 256 {
        var i := if page < 130 then 0 else if page < 254 then page - 129 else 125;
        assert ch.slots[i].Used() && D.Holds(ch.slots[i].AsBlock(), page);
      }
    }
  }

  lemma AllMerged()
    ensures C.Merged(FullTable().slots, 0)
  {
  }

  lemma SmallSlots()
    ensures Pow2(0) == 1 && Pow2(1) == 2 && C.Geometry(FullTable()) && C.Merged(FullTable().slots, 0)
  {
    hide D.Buddy;
    hide C.Merged;
    assert Pow2(0) == 1 && Pow2(1) == 2;
    var ch := FullTable();
    forall i | 0 <= i < 126 ensures C.InBounds(ch, ch.slots[i].AsBlock()) {}
    forall i, j | 0 <= i < j < 126 ensures D.Disjoint(ch.slots[i].AsBlock(), ch.slots[j].AsBlock()) {}
    AllMerged();
  }

  /** Splitting that block finds no slot for page 129, which is then tracked by nothing. */
  lemma SplitWitness()
    ensures var ch := FullTable();
            var split := ch.(slots := ch.slots[0 := C.Slot(128, 0, false)]);
            && (forall i :: 0 <= i < |ch.slots| ==> ch.slots[i].Used())
            && C.Sound(split, {D.Block(129, 0)}, 0) && !C.Tracked(split.slots, 129) && !C.Sound(split, {}, 0)
  {
    hide C.Carved;
    var ch := FullTable();
    FullTableSound();
    SmallSlots();
    C.SplitLoses(ch, {}, 0);
    var split := ch.(slots := ch.slots[0 := C.Slot(128, 0, false)]);
    assert C.Halved(ch.slots[0]) == C.Slot(128, 0, false) && C.RightHalf(ch.slots[0]).AsBlock() == D.Block(129, 0);
    assert {} + {D.Block(129, 0)} == {D.Block(129, 0)};
    C.SameCarve(ch, split.slots);
    OneCarved();
    assert D.Covered(C.Carved(split), 129) by { assert D.Block(128, 7) in C.Carved(split); }
  }

  /** One page allocated and freed as two: the allocator is broken. */
  method WrongOrderRun() returns (alloc: A.PageAllocator, reached: bool)
    ensures reached ==> !alloc.Valid()
  {
    var memory := new P.PhysicalMemory();
    memory.AddRegion(1, 1000);
    NoPageZero(memory.regions);
    alloc := new A.PageAllocator(memory);
    var r := alloc.PageAlloc(0);
    if r == 0 { return alloc, false; }
    assert alloc.Live(D.Block(r, 0));
    OnlyItsOrder(alloc, r);
    alloc.PageFree(r * 4096, 1);
    reached := true;
  }

  lemma NoPageZero(regions: seq<P.Region>)
    requires forall i :: 0 <= i < |regions| ==> regions[i].base == 1
    ensures !P.FreeIn(regions, 0)
  {
  }

  lemma OnlyItsOrder(alloc: A.PageAllocator, r: nat)
    requires alloc.Valid() && alloc.Live(D.Block(r, 0)) && r > 0
    ensures r * 4096 / P.PAGE_SIZE == r && r * 4096 % P.PAGE_SIZE == 0
    ensures !alloc.Live(D.Block(r, 1)) && !alloc.Ignored(r)
    ensures !alloc.Harmless(r * 4096, 1)
  {
    hide A.Backed;
    hide G.Structure;
    hide G.Good;
    hide Pow2;
    A.DirectOrders(alloc.chunks, alloc.direct, alloc.pmm.regions);
    A.LiveSlot(alloc.Now(), D.Block(r, 0));
    if alloc.Live(D.Block(r, 1)) { alloc.LiveNeverOverlap(D.Block(r, 0), D.Block(r, 1)); }
  }

  // -------------------------------------------------------------- page tables

  const RW := T.Attrs(true, true, false, false, false, false)

  /** Address 0 mapped to 1 GB by one block: the hardware translates it, the kernel's lookup says unmapped. */
  lemma BlockLookupWitness() returns (tables: W.Tables, places: map<nat, W.Place>)
    ensures W.SoundTables(T.Sv39, tables, 4096, places)
    ensures W.Translate(T.Sv39, tables, 4096, 0) == Some(W.Hit(0x4000_0000, T.Granted(T.Sv39, RW)))
    ensures W.Reach(T.Sv39, tables, 4096, T.Top(T.Sv39), 0, 0).Blocked?
  {
    assert T.Size(1) == 0x20_0000 && T.Size(2) == 0x4000_0000 && T.Size(3) == 512 * 0x4000_0000;
    var w := T.MakeBlock(T.Sv39, 0x4000_0000, RW, 2);
    T.MadeBlock(T.Sv39, 0x4000_0000, RW, 2);
    var top: seq<nat> := seq(512, i requires 0 <= i < 512 => if i == 0 then w else 0);
    tables, places := map[4096 := top], map[4096 := W.Place(2, 0)];
    forall t, i | t in tables && 0 <= i < 512 ensures W.EntryOk(T.Sv39, tables[t][i], places[t], i, tables, places) {
      if i > 0 { assert tables[t][i] == 0; }
    }
    assert T.Index(0, 2) == 0;
  }

  /** An empty table left behind where a 1 GB block would go: every page can be mapped, the range cannot. */
  lemma PlanWitness() returns (tables: W.Tables, places: map<nat, W.Place>)
    ensures W.SoundTables(T.Sv39, tables, 4096, places)
    ensures V.PagesFree(T.Sv39, tables, 4096, 0, 0x4_0000) && !V.PlanFree(T.Sv39, tables, 4096, 0, 0, 0x4000_0000)
  {
    assert T.Size(1) == 0x20_0000 && T.Size(2) == 0x4000_0000 && T.Size(3) == 512 * 0x4000_0000;
    var w := T.MakeTable(T.Sv39, 8192);
    T.MadeTable(T.Sv39, 8192, 2);
    var top: seq<nat> := seq(512, i requires 0 <= i < 512 => if i == 0 then w else 0);
    var empty: seq<nat> := seq(512, _ => 0);
    tables, places := map[4096 := top, 8192 := empty], map[4096 := W.Place(2, 0), 8192 := W.Place(1, 0)];
    forall t, i | t in tables && 0 <= i < 512 ensures W.EntryOk(T.Sv39, tables[t][i], places[t], i, tables, places) {
      if t == 8192 || i > 0 { assert tables[t][i] == 0; }
    }
    forall v: nat ensures !W.EntryTaken(T.Sv39, tables, 4096, v, 0) {
      var i := T.Index(v, 2);
      assert top[i] == if i == 0 then w else 0;
      assert empty[T.Index(v, 1)] == 0;
    }
    assert V.Choice(T.Sv39, 0, 0, 0x4000_0000) == 2;
    assert T.Index(0, 2) == 0 && top[0] == w;
    assert V.Occupied(T.Sv39, tables, 4096, 0, 2);
  }

  /** A range that ends at the top of the 64-bit address space: success is reported and nothing is mapped. */
  method WrapRun() returns (space: V.AddressSpace, ok: bool)
    ensures ok && W.Translate(space.a, space.tables, space.root, 0xFFFF_FFFF_FFFF_F000) == None
  {
    space := new V.AddressSpace(T.Sv39, 4096);
    ghost var exhausted;
    ok, exhausted := space.MapRange(0xFFFF_FFFF_FFFF_F000, 0, 4096, RW);
  }

  // -------------------------------------------------------------- radix tree

  /** Keys 5 and 9; deleting 9 resets the maximum, and iteration no longer finds 5. */
  method LostKeyRun() returns (t: R.RadixTree, reached: bool)
    ensures reached ==> t.Valid() && N.Value(t.Now(), 5) != 0 && t.maxKey == 0 && !R.MaxKeyBounds(t.Now())
  {
    t := new R.RadixTree();
    ghost var e1, e2;
    var ok;
    ok, e1 := t.Insert(5, 50);
    if !ok { return t, false; }
    ok, e2 := t.Insert(9, 90);
    if !ok { return t, false; }
    assert N.Value(t.Now(), 5) == 50 && N.Value(t.Now(), 9) == 90 && t.maxKey == 9;
    var r := t.Delete(9);
    assert N.Value(t.Now(), 5) == 50;
    if t.height == 0 { R.EmptyTree(t.Now()); }
    reached := true;
  }

  /** From key 0xFFFFFFFF iteration starts over at key 0. */
  method WrapAroundRun() returns (t: R.RadixTree, reached: bool, results: seq<nat>)
    ensures reached ==> results == [70, 10]
  {
    t := new R.RadixTree();
    ghost var e1, e2, keys;
    var ok;
    ok, e1 := t.Insert(0, 10);
    if !ok { return t, false, []; }
    ok, e2 := t.Insert(N.KEYS - 1, 70);
    if !ok { return t, false, []; }
    ghost var now := t.Now();
    assert N.Value(now, 0) == 10 && N.Value(now, N.KEYS - 1) == 70 && t.maxKey == N.KEYS - 1;
    results, keys := t.GangLookup(N.KEYS - 1, 2);
    WrapChain(now, keys);
    reached := true;
  }

  lemma WrapChain(t: N.Tree, keys: seq<nat>)
    requires N.Wf(t) && t.maxKey == N.KEYS - 1 && N.Value(t, 0) != 0 && N.Value(t, N.KEYS - 1) != 0
    requires R.Chain(t, N.KEYS - 1, keys) && |keys| <= 2
    requires |keys| < 2 ==> forall k: nat :: R.ChainEnd(N.KEYS - 1, keys) <= k <= t.maxKey ==> N.Value(t, k) == 0
    ensures keys == [N.KEYS - 1, 0]
  {
    hide N.Wf;
    hide N.Value;
    var first := N.KEYS - 1;
    assert R.ChainEnd(first, []) == first && R.ChainEnd(first, [first]) == 0;
    if keys != [] {
      FirstOfChain(t, first, keys);
      assert keys[..1] == [first];
    }
    if |keys| == 2 { assert R.IsNext(t, R.ChainEnd(first, keys[..1]), keys[1]); }
  }

  lemma {:induction false} FirstOfChain(t: N.Tree, first: nat, keys: seq<nat>)
    requires N.Wf(t) && R.Chain(t, first, keys) && keys != []
    ensures R.IsNext(t, first, keys[0])
    decreases |keys|
  {
    hide N.Wf;
    hide N.Value;
    if |keys| > 1 { FirstOfChain(t, first, keys[..|keys| - 1]); }
  }

  /** Replacing key 1 next to key 0 stores an item that the leaf does not count. */
  method ReplaceRun() returns (t: R.RadixTree, reached: bool)
    ensures reached ==> !t.Valid()
  {
    t := new R.RadixTree();
    ghost var e;
    var ok;
    ok, e := t.Insert(0, 10);
    if !ok { return t, false; }
    SameLeafAs0(t.Now());
    assert N.Value(t.Now(), 1) == 0;
    var r := t.Replace(1, 11);
    reached := true;
  }

  lemma SameLeafAs0(t: N.Tree)
    requires N.Wf(t) && N.Value(t, 0) != 0
    ensures N.Path(1, 0) == N.Path(0, 0) && N.Path(1, 0) in t.index
  {
  }

  // -------------------------------------------------------------- slabs

  /** Objects of 128 KB come one to a slab. */
  lemma OneObjectWitness()
    ensures Y.ObjectsPerSlab(131072, 8) == 1
  {
  }

  /** Freeing object 0 of a new slab of two twice: the first free index leads to itself. */
  lemma DoubleFreeWitness(d: seq<nat>)
    ensures S.Chained(S.FreshList(2), 0, [0, 1])
    ensures !S.Chained(S.FreshList(2)[0 := 0], 0, d)
  {
    var f, c: seq<nat> := S.FreshList(2), [0, 1];
    assert S.LinkAt(f, c, 0) && S.LinkAt(f, c, 1);
    assert c[0] == 0;
    S.DoubleFreeCycles(f, 0, c, 0, d);
  }

  /** A slab with a 128-byte header directly below one with a 64-byte header: the first object of the upper
      slab lies in both recorded ranges, and if the lower slab's entry comes first its cache is named. */
  lemma OwnerWitness()
    ensures var low, high := L.Placed(1, 4096, 4096, 128, 1), L.Placed(2, 8192, 4096, 64, 2);
            var tracked := map[1 := L.Track(low.Recorded(), 2), 2 := L.Track(high.Recorded(), 2)];
            var where := map[1 := low, 2 := high];
            && L.PlacedAs(tracked, where) && !L.Unshadowed(where, 2)
            && high.Owns(8256) && L.Owners(tracked, 8256) == {1, 2}
            && L.FirstCovering([L.EntryFor(low.Recorded(), 2), L.EntryFor(high.Recorded(), 2)], 8256) == Some(1)
            && L.FirstCovering([L.EntryFor(high.Recorded(), 2), L.EntryFor(low.Recorded(), 2)], 8256) == Some(2)
  {
    var low, high := L.Placed(1, 4096, 4096, 128, 1), L.Placed(2, 8192, 4096, 64, 2);
    var tracked := map[1 := L.Track(low.Recorded(), 2), 2 := L.Track(high.Recorded(), 2)];
    var where := map[1 := low, 2 := high];
    assert 1 in where && where[1].mem + where[1].size == where[2].mem;
    assert tracked[1].slab.Covers(8256) && tracked[2].slab.Covers(8256);
    assert 1 in L.Owners(tracked, 8256) && 2 in L.Owners(tracked, 8256);
  }

  /** A slab created while the bucket array is allocated is entered but not counted. */
  method MigrateRun() returns (t: L.LookupTable, panicked: bool)
    ensures !panicked ==> t.Valid() && 1 in t.tracked && t.numEntries != L.Total(t.buckets) % L.WORD
  {
    t := new L.LookupTable();
    var slab := L.Slab(1, 4096, 4096, 7);
    assert slab.Span() == 1 && slab.Addressable();
    panicked := t.Migrate([], [slab]);
    if !panicked {
      assert ([] + [slab])[0] == slab;
      assert [slab][..0] == [] && L.SpanSum([slab]) == 1;
      Uncounted(t.numEntries, L.Total(t.buckets));
    }
  }

  lemma Uncounted(count: nat, total: nat)
    requires L.CountedAs(count, total, 1)
    ensures count != total % L.WORD
  {
  }

  // -------------------------------------------------------------- interrupts

  /** Mapping and disposing of a reserved number loses the reservation. */
  lemma ReservationWitness()
    ensures var s := ReservedZero();
            && I.Inv(s) && I.Feasible(s, 0, 0)
            && var t := I.Attach(s, 0, 0); I.Intact(t, 0, 0) && |t.bitmap| == |t.descs| && M.Detach(t, 0, 0) != s
  {
    var s := ReservedZero();
    assert I.Inv(s);
    assert s.bitmap[0] && !s.bitmap[1];
    M.RoundTrip(s, 0, 0);
  }

  function ReservedZero(): I.State {
    I.State(seq(I.MAX_VIRQ, i => i == 0), seq(I.MAX_VIRQ, _ => None), [I.Domain(I.Tree, [], [], map[0 := I.Reserved])])
  }

  /** Two interrupts of a hierarchy domain that share their parent's only one. */
  function SharedParent(): I.State {
    I.State(
      seq(I.MAX_VIRQ, i => i < 4),
      seq(I.MAX_VIRQ, i => if i == 1 then Some(I.Desc(0, Some(1), 2, false))
                           else if i == 2 then Some(I.Desc(0, Some(0), 0, false))
                           else if i == 3 then Some(I.Desc(1, Some(1), 2, false)) else None),
      [I.Domain(I.Linear, [2], [2], map[]),
       I.Domain(I.Hierarchy(0, map[1 := 0]), [1, 3], [1, 3], map[])])
  }

  lemma SharedParentInv()
    ensures I.Inv(SharedParent())
  {
    var s := SharedParent();
    forall d: nat, h: nat ensures
      I.Mapped(s, d, h) == if d == 0 && h == 0 then 2 else if d == 1 && h == 0 then 1 else if d == 1 && h == 1 then 3 else 0
    {}
    assert I.Intact(s, 0, 0);
    assert I.Intact(s, 1, 0) && I.Intact(s, 1, 1);
    forall v: nat | v < |s.descs| && s.descs[v].Some? ensures v == 1 || v == 2 || v == 3 {}
  }

  /** Disposing of the first leaves the second mapped but without its parent. */
  lemma StrandedWitness()
    ensures var s := SharedParent();
            && I.Inv(s) && M.Shared(s, 1, 0) && I.Intact(s, 1, 0)
            && I.Mapped(M.Detach(s, 1, 0), 1, 1) == 3 && !I.Intact(M.Detach(s, 1, 0), 1, 1)
  {
    var s := SharedParent();
    SharedParentInv();
    assert I.Mapped(s, 1, 1) == 3 && I.Mapped(s, 1, 0) == 1;
    M.MappedIntact(s, 1, 0, 2);
    assert I.Up(s.domains[1], 1) == 0 && I.Up(s.domains[1], 0) == 0;
    assert M.OnPath(s, 0, 0, 0, 0) && M.OnPath(s, 1, 0, 0, 0);
    assert M.Hangs(s, 1, 0, 1, 1);
    M.Stranded(s, 1, 0, 1, 1);
    M.DetachMaps(s, 1, 0, 1, 1);
  }

  /** With a handler attached, disposal frees the virq and keeps the descriptor. */
  method HandlerRun() returns (core: Q.IrqCore, reached: bool)
    ensures reached ==> !I.TablesOk(core.Now())
  {
    core := new Q.IrqCore();
    var ok, d := core.CreateDomain(I.Linear, 1);
    if !ok { return core, false; }
    var virq;
    ghost var why;
    virq, why := core.CreateMapping(0, 0);
    if virq == I.INVALID { return core, false; }
    ok := core.RequestIrq(virq, false);
    if !ok { return core, false; }
    ghost var s := core.Now();
    assert I.Mapped(s, 0, 0) == virq;
    HandlerOnPath(s, virq);
    core.Dispose(virq);
    M.HandlerStays(s, 0, 0);
    reached := true;
  }

  lemma HandlerOnPath(s: I.State, virq: nat)
    requires I.Inv(s) && 0 < |s.domains| && virq != 0 && I.Mapped(s, 0, 0) == virq
    requires virq < |s.descs| && s.descs[virq].Some? && s.descs[virq].value.action
    ensures I.Intact(s, 0, 0) && !M.Quiet(s, 0, 0) && Q.Named(s, virq)
    ensures s.descs[virq].value.domain == Some(0) && s.descs[virq].value.hwirq == 0
  {
    M.MappedIntact(s, 0, 0, |s.domains|);
    assert M.OnPath(s, 0, 0, 0, 0);
  }

  /** Without a free virq a vector is handed out all the same, with an invalid number. */
  method NoVirqRun() returns (device: X.MsiDevice, r: int, ghost starved: bool)
    ensures r > 0 && !starved ==> r == 1 && device.list == [K.Vector(0, I.INVALID)]
  {
    var core := new Q.IrqCore();
    core.bitmap := seq(I.MAX_VIRQ, _ => true);
    core.domains := [I.Domain(I.Tree, [], [], map[])];
    device := new X.MsiDevice();
    AllTaken(core.bitmap);
    assert I.Inv(core.Now());
    ghost var base, irqs;
    r, base, irqs, starved := device.AllocVectors(core, 0, 1, 1);
    if r > 0 {
      assert K.FreeRun(I.Domain(I.Tree, [], [], map[]), 0, 1);
    }
  }

  lemma {:induction false} AllTaken(bitmap: seq<bool>)
    requires forall i :: 0 <= i < |bitmap| ==> bitmap[i]
    ensures ClearBits(bitmap) == 0
  {
    if bitmap != [] { AllTaken(bitmap[..|bitmap| - 1]); }
  }
}
