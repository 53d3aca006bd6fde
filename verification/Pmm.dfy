/** The physical memory manager: one bitmap per memory region, first-fit allocation.

    Addresses are page frame numbers. A set bit is a page in use.
 */
module Pmm {
  import opened Bits

  const PAGE_SIZE := 4096

  datatype Region = Region(base: nat, bitmap: seq<bool>, freePages: int) {
    function End(): nat { base + |bitmap| }
    predicate Has(page: nat) { base <= page < End() }
  }

  ghost predicate DisjointRegions(regions: seq<Region>) {
    forall i, j :: 0 <= i < j < |regions| ==> regions[i].End() <= regions[j].base || regions[j].End() <= regions[i].base
  }

  ghost predicate ManagedIn(regions: seq<Region>, page: nat) {
    exists i :: 0 <= i < |regions| && regions[i].Has(page)
  }

  ghost predicate FreeIn(regions: seq<Region>, page: nat) {
    exists i :: 0 <= i < |regions| && regions[i].Has(page) && !regions[i].bitmap[page - regions[i].base]
  }

  /** Pages `start .. start + count` of the bitmap exist and are all free. */
  predicate FreeRun(bitmap: seq<bool>, start: nat, count: nat) {
    start + count <= |bitmap| && forall j :: start <= j < start + count ==> !bitmap[j]
  }

  /** Region `i`, page `start` is the first place in region order that has `count` free pages. */
  ghost predicate FirstFit(regions: seq<Region>, count: nat, i: nat, start: nat) {
    && i < |regions| && FreeRun(regions[i].bitmap, start, count)
    && (forall s: nat :: s < start ==> !FreeRun(regions[i].bitmap, s, count))
    && (forall h: nat, s: nat :: h < i ==> !FreeRun(regions[h].bitmap, s, count))
  }

  ghost predicate NoFit(regions: seq<Region>, count: nat) {
    forall h: nat, s: nat :: h < |regions| ==> !FreeRun(regions[h].bitmap, s, count)
  }

  /** Between the two tables exactly the first fit of `count` pages, which starts at page `first`, was taken. */
  ghost predicate Took(before: seq<Region>, after: seq<Region>, count: nat, first: nat) {
    && SameLayout(after, before)
    && (exists i: nat, start: nat :: FirstFit(before, count, i, start) && first == before[i].base + start)
    && (forall page: nat :: FreeIn(after, page) <==> FreeIn(before, page) && !(first <= page < first + count))
  }

  ghost predicate SameLayout(a: seq<Region>, b: seq<Region>) {
    |a| == |b| && forall i :: 0 <= i < |a| ==> a[i].base == b[i].base && |a[i].bitmap| == |b[i].bitmap|
  }

  function SumFree(regions: seq<Region>): int {
    if regions == [] then 0 else SumFree(regions[..|regions| - 1]) + regions[|regions| - 1].freePages
  }

  function SumTotal(regions: seq<Region>): int {
    if regions == [] then 0 else SumTotal(regions[..|regions| - 1]) + |regions[|regions| - 1].bitmap|
  }

  lemma {:induction false} SumFreeUpdate(regions: seq<Region>, i: nat, r: Region)
    requires i < |regions| && |r.bitmap| == |regions[i].bitmap|
    ensures SumFree(regions[i := r]) == SumFree(regions) - regions[i].freePages + r.freePages
    ensures SumTotal(regions[i := r]) == SumTotal(regions)
  {
    var n := |regions| - 1;
    if i == n {
      assert regions[i := r][..n] == regions[..n];
    } else {
      assert regions[i := r][..n] == regions[..n][i := r];
      SumFreeUpdate(regions[..n], i, r);
    }
  }

  /** The layout and the free pages together determine the whole region table. */
  lemma FreePagesDetermineRegions(a: seq<Region>, b: seq<Region>)
    requires DisjointRegions(a) && SameLayout(a, b)
    requires Counted(a) && Counted(b)
    requires forall page: nat :: FreeIn(a, page) <==> FreeIn(b, page)
    ensures a == b
  {
    forall i | 0 <= i < |a| ensures a[i] == b[i] {
      forall j | 0 <= j < |a[i].bitmap| ensures a[i].bitmap[j] == b[i].bitmap[j] {
        var page := a[i].base + j;
        assert a[i].Has(page) && b[i].Has(page);
        assert FreeIn(a, page) <==> !a[i].bitmap[j];
        assert FreeIn(b, page) <==> !b[i].bitmap[j];
      }
      assert a[i].bitmap == b[i].bitmap;
    }
  }

  /** The page shares a byte with the range. */
  predicate Touches(base: nat, end: nat, page: nat) {
    page * 4096 < end && base < (page + 1) * 4096
  }

  /** The page belongs to one of the first `n` regions. */
  ghost predicate InFirst(regions: seq<Region>, n: nat, page: nat) {
    exists i :: 0 <= i < n && i < |regions| && regions[i].Has(page)
  }

  lemma NoneFirst(regions: seq<Region>)
    ensures forall page: nat :: !InFirst(regions, 0, page)
  {
  }

  lemma FirstStep(regions: seq<Region>, n: nat)
    requires n < |regions|
    ensures forall page: nat :: InFirst(regions, n + 1, page) <==> InFirst(regions, n, page) || regions[n].Has(page)
  {
  }

  lemma AllFirst(regions: seq<Region>)
    ensures forall page: nat :: InFirst(regions, |regions|, page) <==> ManagedIn(regions, page)
  {
  }

  lemma HasManaged(regions: seq<Region>, i: nat, page: nat)
    requires i < |regions| && regions[i].Has(page)
    ensures ManagedIn(regions, page) && (!regions[i].bitmap[page - regions[i].base] ==> FreeIn(regions, page))
  {
  }

  lemma FreeManaged(regions: seq<Region>)
    ensures forall page: nat :: FreeIn(regions, page) ==> ManagedIn(regions, page)
  {
  }

  /** Freeing exactly the pages an allocation took restores the region table, bit for bit. */
  lemma FreeUndoesAlloc(a: seq<Region>, b: seq<Region>, c: seq<Region>, first: nat, count: nat)
    requires DisjointRegions(a) && SameLayout(a, b) && SameLayout(b, c) && Counted(a) && Counted(c)
    requires forall page: nat :: first <= page < first + count ==> FreeIn(a, page)
    requires forall page: nat :: FreeIn(b, page) <==> FreeIn(a, page) && !(first <= page < first + count)
    requires forall page: nat :: FreeIn(c, page) <==> FreeIn(b, page) || (first <= page < first + count && ManagedIn(c, page))
    ensures c == a
  {
    SameManaged(a, b);
    SameManaged(b, c);
    FreeManaged(a);
    FreePagesDetermineRegions(a, c);
  }

  /** Each region's counter is its number of clear bits. */
  ghost predicate Counted(regions: seq<Region>) {
    forall i :: 0 <= i < |regions| ==> regions[i].freePages == ClearBits(regions[i].bitmap)
  }

  lemma {:induction false} FreeNotNegative(regions: seq<Region>)
    requires Counted(regions)
    ensures SumFree(regions) >= 0
  {
    if regions != [] { FreeNotNegative(regions[..|regions| - 1]); }
  }

  lemma AppendRegion(regions: seq<Region>, r: Region)
    requires DisjointRegions(regions)
    requires forall i :: 0 <= i < |regions| ==> r.End() <= regions[i].base || regions[i].End() <= r.base
    ensures DisjointRegions(regions + [r])
    ensures SumFree(regions + [r]) == SumFree(regions) + r.freePages
    ensures SumTotal(regions + [r]) == SumTotal(regions) + |r.bitmap|
    ensures Counted(regions) && r.freePages == ClearBits(r.bitmap) ==> Counted(regions + [r])
  {
    assert (regions + [r])[..|regions|] == regions;
  }

  /** Replacing a region by one of the same extent: the layout and the sums. */
  lemma UpdateRegion(regions: seq<Region>, i: nat, r: Region)
    requires DisjointRegions(regions) && i < |regions|
    requires r.base == regions[i].base && |r.bitmap| == |regions[i].bitmap|
    ensures DisjointRegions(regions[i := r]) && SameLayout(regions[i := r], regions)
    ensures SumFree(regions[i := r]) == SumFree(regions) - regions[i].freePages + r.freePages
    ensures SumTotal(regions[i := r]) == SumTotal(regions)
    ensures Counted(regions) && r.freePages == ClearBits(r.bitmap) ==> Counted(regions[i := r])
  {
    SumFreeUpdate(regions, i, r);
    var s := regions[i := r];
    forall k | 0 <= k < |s| ensures s[k].base == regions[k].base && s[k].End() == regions[k].End() {}
  }

  method EmptyBitmap(pages: nat) returns (r: seq<bool>)
    ensures |r| == pages && FreeRun(r, 0, pages) && ClearBits(r) == pages
  {
    r := [];
    for k := 0 to pages
      invariant |r| == k && FreeRun(r, 0, k) && ClearBits(r) == k
    {
      assert (r + [false])[..k] == r;
      r := r + [false];
    }
  }

  method SetBits(bitmap: seq<bool>, start: nat, count: nat) returns (r: seq<bool>)
    requires FreeRun(bitmap, start, count)
    ensures |r| == |bitmap| && ClearBits(r) == ClearBits(bitmap) - count
    ensures forall j :: 0 <= j < |r| ==> r[j] == if start <= j < start + count then true else bitmap[j]
  {
    r := bitmap;
    for k := 0 to count
      invariant |r| == |bitmap| && ClearBits(r) == ClearBits(bitmap) - k
      invariant forall j :: 0 <= j < |r| ==> r[j] == if start <= j < start + k then true else bitmap[j]
    {
      ClearBitsUpdate(r, start + k, true);
      r := r[start + k := true];
    }
  }

  class PhysicalMemory {
    var regions: seq<Region>
    var totalPages: int
    var freePages: int
    var allocatedPages: int
    var reservedPages: int

    ghost predicate Valid()
      reads this
    {
      && DisjointRegions(regions)
      && Counted(regions)
      && freePages == SumFree(regions)
      && totalPages == SumTotal(regions)
      && totalPages == freePages + allocatedPages + reservedPages
    }

    ghost predicate IsFree(page: nat)
      reads this
    {
      FreeIn(regions, page)
    }

    constructor ()
      ensures Valid() && regions == [] && allocatedPages == 0 && reservedPages == 0
    {
      regions, totalPages, freePages, allocatedPages, reservedPages := [], 0, 0, 0, 0;
    }

    /** `pmm_init` adds each memory region with all its pages free. */
    method AddRegion(base: nat, pages: nat)
      requires Valid()
      requires forall i :: 0 <= i < |regions| ==> base + pages <= regions[i].base || regions[i].End() <= base
      modifies this
      ensures Valid()
      ensures exists bitmap :: |bitmap| == pages && FreeRun(bitmap, 0, pages) && regions == old(regions) + [Region(base, bitmap, pages)]
      ensures allocatedPages == old(allocatedPages) && reservedPages == old(reservedPages)
    {
      var bitmap := EmptyBitmap(pages);
      AppendRegion(regions, Region(base, bitmap, pages));
      regions := regions + [Region(base, bitmap, pages)];
      totalPages := totalPages + pages;
      freePages := freePages + pages;
    }

    /** Mark `count` pages of region `i` from `start` as in use. */
    method TakeRun(i: nat, start: nat, count: nat)
      requires Valid() && i < |regions| && FreeRun(regions[i].bitmap, start, count)
      modifies this
      ensures Valid() && SameLayout(regions, old(regions))
      ensures forall page: nat :: FreeIn(regions, page) <==>
                FreeIn(old(regions), page) && !(regions[i].base + start <= page < regions[i].base + start + count)
      ensures freePages == old(freePages) - count && totalPages == old(totalPages)
      ensures allocatedPages == old(allocatedPages) + count && reservedPages == old(reservedPages)
    {
      var region := regions[i];
      var bitmap := SetBits(region.bitmap, start, count);
      var updated := Region(region.base, bitmap, region.freePages - count);
      UpdateRegion(regions, i, updated);
      FreeAfterUpdate(regions, i, updated, start, count);
      regions := regions[i := updated];
      freePages := freePages - count;
      allocatedPages := allocatedPages + count;
    }

    /** First fit over the regions in order. Returns the first page, or 0 when nothing fits;
        `hit` tells a failure from a run that starts at page 0. */
    method AllocPages(count: nat) returns (r: nat, ghost hit: bool)
      requires Valid()
      modifies this
      ensures Valid() && SameLayout(regions, old(regions)) && reservedPages == old(reservedPages)
      ensures hit <==> count > 0 && !NoFit(old(regions), count)
      ensures !hit ==> r == 0 && regions == old(regions) && freePages == old(freePages) && allocatedPages == old(allocatedPages)
      ensures hit ==> Took(old(regions), regions, count, r)
      ensures hit ==> forall page: nat :: r <= page < r + count ==> FreeIn(old(regions), page)
      ensures hit ==> freePages == old(freePages) - count && allocatedPages == old(allocatedPages) + count
    {
      r, hit := 0, false;
      if count == 0 { return; }
      var i := 0;
      while i < |regions|
        invariant 0 <= i <= |regions| && regions == old(regions) && Valid()
        invariant freePages == old(freePages) && allocatedPages == old(allocatedPages) && reservedPages == old(reservedPages)
        invariant forall h: nat, s: nat :: h < i ==> !FreeRun(regions[h].bitmap, s, count)
      {
        var bitmap := regions[i].bitmap;
        var start, found: nat := 0, 0;
        var page := 0;
        while page < |bitmap|
          invariant 0 <= page <= |bitmap| && found < count
          invariant found <= page
          invariant found > 0 ==> start == page - found
          invariant forall j :: page - found <= j < page ==> !bitmap[j]
          invariant page - found == 0 || bitmap[page - found - 1]
          invariant forall s: nat :: s < page - found ==> !FreeRun(bitmap, s, count)
        {
          if !bitmap[page] {
            if found == 0 { start := page; }
            found := found + 1;
            if found == count {
              assert FirstFit(regions, count, i, start);
              FreeRunIsFree(regions, i, start, count);
              TakeRun(i, start, count);
              r, hit := regions[i].base + start, true;
              return;
            }
          } else {
            forall s: nat | s <= page ensures !FreeRun(bitmap, s, count) {
              if s >= page - found && s + count <= |bitmap| {
                assert s <= page < s + count && bitmap[page];
              }
            }
            found := 0;
          }
          page := page + 1;
        }
        i := i + 1;
      }
    }

    /** Set aside one page of region `i` unless it is in use. */
    method ReserveIn(i: nat, j: nat)
      requires Valid() && i < |regions| && j < |regions[i].bitmap|
      modifies this
      ensures Valid() && SameLayout(regions, old(regions)) && allocatedPages == old(allocatedPages)
      ensures forall p: nat :: FreeIn(regions, p) <==> FreeIn(old(regions), p) && p != regions[i].base + j
    {
      hide FreeIn;
      hide SumFree;
      hide SumTotal;
      hide ClearBits;
      var r := regions[i];
      if r.bitmap[j] {
        FreeIs(regions, i, r.base + j);
        return;
      }
      r := Region(r.base, r.bitmap[j := true], r.freePages - 1);
      ClearBitsUpdate(regions[i].bitmap, j, true);
      UpdateRegion(regions, i, r);
      FreeAfterUpdate(regions, i, r, j, 1);
      regions := regions[i := r];
      freePages := freePages - 1;
      reservedPages := reservedPages + 1;
    }

    /** Reserve the page an address lies in. */
    method ReservePage(page: nat)
      requires Valid()
      modifies this
      ensures Valid() && SameLayout(regions, old(regions)) && allocatedPages == old(allocatedPages)
      ensures forall p: nat :: FreeIn(regions, p) <==> FreeIn(old(regions), p) && p != page
    {
      var i := 0;
      while i < |regions| && !regions[i].Has(page)
        invariant 0 <= i <= |regions|
        invariant forall h :: 0 <= h < i ==> !regions[h].Has(page)
      {
        i := i + 1;
      }
      if i == |regions| { return; }
      ReserveIn(i, page - regions[i].base);
    }

    /** Reserve a range of bytes: every page it touches, in whatever region, is free no more. */
    method ReserveRegion(base: nat, size: nat)
      requires Valid()
      modifies this
      ensures Valid() && SameLayout(regions, old(regions)) && allocatedPages == old(allocatedPages)
      ensures forall p: nat :: FreeIn(regions, p) <==> FreeIn(old(regions), p) && !Touches(base, base + size, p)
    {
      hide FreeIn;
      hide InFirst;
      hide Touches;
      hide SumFree;
      hide SumTotal;
      var end := base + size;
      var i := 0;
      NoneFirst(regions);
      while i < |regions|
        invariant 0 <= i <= |regions| && Valid() && SameLayout(regions, old(regions)) && allocatedPages == old(allocatedPages)
        invariant forall p: nat :: FreeIn(regions, p) <==> FreeIn(old(regions), p) && !(Touches(base, end, p) && InFirst(old(regions), i, p))
      {
        ReserveOverlap(i, base, end);
        FirstStep(old(regions), i);
        i := i + 1;
      }
      AllFirst(old(regions));
      FreeManaged(old(regions));
    }

    /** The part of a byte range that lies in one region. */
    method ReserveOverlap(i: nat, base: nat, end: nat)
      requires Valid() && i < |regions| && base <= end
      modifies this
      ensures Valid() && SameLayout(regions, old(regions)) && allocatedPages == old(allocatedPages)
      ensures forall p: nat :: FreeIn(regions, p) <==> FreeIn(old(regions), p) && !(Touches(base, end, p) && regions[i].Has(p))
    {
      var lo, hi := regions[i].base * 4096, regions[i].End() * 4096;
      if end <= lo || base >= hi { return; }
      var first := (if base > lo then base else lo) / 4096 - regions[i].base;
      var last := ((if end < hi then end else hi) + 4095) / 4096 - regions[i].base;
      var pages := |regions[i].bitmap|;
      if last > pages { last := pages; }
      ghost var b := regions[i].base;
      forall p: nat ensures Touches(base, end, p) && regions[i].Has(p) <==> b + first <= p < b + last {}
      var j := first;
      while j < last
        invariant first <= j <= last
        invariant Valid() && SameLayout(regions, old(regions)) && allocatedPages == old(allocatedPages)
        invariant forall p: nat :: FreeIn(regions, p) <==> FreeIn(old(regions), p) && !(b + first <= p < b + j)
      {
        ReserveIn(i, j);
        j := j + 1;
      }
    }

    /** Free one page. An unmanaged or already free page is ignored. */
    method FreePage(page: nat)
      requires Valid()
      modifies this
      ensures Valid() && SameLayout(regions, old(regions)) && reservedPages == old(reservedPages)
      ensures forall p: nat :: FreeIn(regions, p) <==> FreeIn(old(regions), p) || (p == page && ManagedIn(regions, page))
    {
      hide FreeIn;
      hide SumFree;
      hide SumTotal;
      hide ClearBits;
      hide DisjointRegions;
      var i := 0;
      while i < |regions| && !regions[i].Has(page)
        invariant 0 <= i <= |regions|
        invariant forall h :: 0 <= h < i ==> !regions[h].Has(page)
      {
        i := i + 1;
      }
      if i == |regions| { return; }
      var j := page - regions[i].base;
      HasManaged(regions, i, page);
      if !regions[i].bitmap[j] { return; }
      var r := Region(regions[i].base, regions[i].bitmap[j := false], regions[i].freePages + 1);
      ClearBitsUpdate(regions[i].bitmap, j, false);
      UpdateRegion(regions, i, r);
      FreeAfterClear(regions, i, r, page);
      regions := regions[i := r];
      HasManaged(regions, i, page);
      freePages := freePages + 1;
      allocatedPages := allocatedPages - 1;
    }

    method FreePages(page: nat, count: nat)
      requires Valid()
      modifies this
      ensures Valid() && SameLayout(regions, old(regions)) && reservedPages == old(reservedPages)
      ensures forall p: nat :: FreeIn(regions, p) <==> FreeIn(old(regions), p) || (page <= p < page + count && ManagedIn(regions, p))
    {
      for k := 0 to count
        invariant Valid() && SameLayout(regions, old(regions)) && reservedPages == old(reservedPages)
        invariant forall p: nat :: FreeIn(regions, p) <==> FreeIn(old(regions), p) || (page <= p < page + k && ManagedIn(regions, p))
      {
        ghost var before := regions;
        FreePage(page + k);
        SameManaged(before, regions);
      }
    }
  }

  lemma SameManaged(a: seq<Region>, b: seq<Region>)
    requires SameLayout(a, b)
    ensures forall page: nat :: ManagedIn(a, page) <==> ManagedIn(b, page)
  {
    forall page: nat ensures ManagedIn(a, page) <==> ManagedIn(b, page) {
      if ManagedIn(a, page) {
        var i :| 0 <= i < |a| && a[i].Has(page);
        assert b[i].Has(page);
      }
      if ManagedIn(b, page) {
        var i :| 0 <= i < |b| && b[i].Has(page);
        assert a[i].Has(page);
      }
    }
  }

  lemma FreeRunIsFree(regions: seq<Region>, i: nat, start: nat, count: nat)
    requires i < |regions| && FreeRun(regions[i].bitmap, start, count)
    ensures forall page: nat :: regions[i].base + start <= page < regions[i].base + start + count ==> FreeIn(regions, page)
  {
    forall page: nat | regions[i].base + start <= page < regions[i].base + start + count ensures FreeIn(regions, page) {
      assert regions[i].Has(page) && !regions[i].bitmap[page - regions[i].base];
    }
  }

  /** With disjoint regions one bit decides whether a managed page is free. */
  lemma FreeIs(regions: seq<Region>, h: nat, page: nat)
    requires DisjointRegions(regions) && h < |regions| && regions[h].Has(page)
    ensures FreeIn(regions, page) <==> !regions[h].bitmap[page - regions[h].base]
  {
  }

  lemma FreeAfterUpdate(a: seq<Region>, i: nat, r: Region, start: nat, count: nat)
    requires DisjointRegions(a) && i < |a| && start + count <= |a[i].bitmap|
    requires r.base == a[i].base && |r.bitmap| == |a[i].bitmap|
    requires forall j :: 0 <= j < |r.bitmap| ==> r.bitmap[j] == if start <= j < start + count then true else a[i].bitmap[j]
    ensures forall page: nat :: FreeIn(a[i := r], page) <==> FreeIn(a, page) && !(r.base + start <= page < r.base + start + count)
  {
    var b := a[i := r];
    UpdateRegion(a, i, r);
    SameManaged(a, b);
    forall page: nat ensures FreeIn(b, page) <==> FreeIn(a, page) && !(r.base + start <= page < r.base + start + count) {
      if h: nat :| h < |a| && a[h].Has(page) {
        FreeIs(a, h, page);
        FreeIs(b, h, page);
        assert h != i ==> !a[i].Has(page);
      }
    }
  }

  lemma FreeAfterClear(a: seq<Region>, i: nat, r: Region, page: nat)
    requires DisjointRegions(a) && i < |a| && a[i].Has(page)
    requires r.base == a[i].base && r.bitmap == a[i].bitmap[page - a[i].base := false]
    ensures forall p: nat :: FreeIn(a[i := r], p) <==> FreeIn(a, p) || p == page
  {
    var b := a[i := r];
    UpdateRegion(a, i, r);
    SameManaged(a, b);
    forall p: nat ensures FreeIn(b, p) <==> FreeIn(a, p) || p == page {
      if h: nat :| h < |a| && a[h].Has(p) {
        FreeIs(a, h, p);
        FreeIs(b, h, p);
        assert h != i ==> !a[i].Has(p);
      }
    }
  }
}
