/** The virtual memory manager: mapping and unmapping pages and ranges.

    The MMU flushes and barriers of the original have no counterpart here; page tables come from an
    allocator that may fail at any call.
 */
module Vmm {
  import opened Bits
  import opened Options
  import opened PageTable
  import opened TableWalk

  const PAGE_SIZE := 4096
  const WORD := 0x1_0000_0000_0000_0000

  /** Distance from `base` to `v`, modulo the span of the tables. */
  function Offset(a: Arch, base: nat, v: nat): (r: nat)
    ensures r < Span(a)
  {
    (v - base) % Span(a)
  }

  /** `after` maps the `size` bytes from `vaddr` to those from `paddr` (truncated to the physical address
      width) and translates every other address as `before` does. */
  ghost predicate MapsRange(a: Arch, root: nat, before: Tables, after: Tables, vaddr: nat, paddr: nat, access: Access, size: nat) {
    forall v: nat ::
      Translate(a, after, root, v) ==
      if Offset(a, vaddr, v) < size then Some(Hit((paddr + Offset(a, vaddr, v)) % PhysLimit(a), access)) else Translate(a, before, root, v)
  }

  /** Nothing in the range was mapped. */
  ghost predicate Unmapped(a: Arch, root: nat, tables: Tables, vaddr: nat, size: nat) {
    forall v: nat :: Offset(a, vaddr, v) < size ==> Translate(a, tables, root, v) == None
  }

  ghost predicate SameTranslation(a: Arch, root: nat, before: Tables, after: Tables) {
    forall v: nat :: Translate(a, after, root, v) == Translate(a, before, root, v)
  }

  // ---------------------------------------------------------------- arithmetic of aligned blocks

  lemma SpanFactor(a: Arch, depth: nat) returns (m: nat)
    requires depth <= Top(a)
    ensures Span(a) == Size(depth) * m && m >= ENTRIES && m % ENTRIES == 0
  {
    assert Size(1) == 512 * 4096 && Size(2) == 512 * Size(1) && Size(3) == 512 * Size(2) && Size(4) == 512 * Size(3);
    m := if Top(a) - depth == 0 then 512 else if Top(a) - depth == 1 then 512 * 512
         else if Top(a) - depth == 2 then 512 * 512 * 512 else 512 * 512 * 512 * 512;
  }

  lemma Regroup(s: nat, m: nat, x: nat, k: nat)
    requires k < m
    ensures s * (m * x + k) == (s * m) * x + s * k && s * k + s <= s * m
  {
    MulAssoc(s, m, x);
    MulMonotone(s, k + 1, m);
  }

  lemma LowAligned(a: Arch, va: nat, depth: nat) returns (k: nat, m: nat)
    requires depth <= Top(a) && va % Size(depth) == 0
    ensures Span(a) == Size(depth) * m && va % Span(a) == Size(depth) * k && k < m
  {
    var s := Size(depth);
    m := SpanFactor(a, depth);
    var q := va / s;
    k := q % m;
    Regroup(s, m, q / m, k);
    DivModUnique(va, s * m, q / m, s * k);
  }

  lemma OffsetOfLow(a: Arch, base: nat, v: nat)
    ensures Offset(a, base, v) == if v % Span(a) >= base % Span(a) then v % Span(a) - base % Span(a) else v % Span(a) - base % Span(a) + Span(a)
  {
    var n := Span(a);
    var x, y := v % n, base % n;
    assert v == n * (v / n) + x && base == n * (base / n) + y;
    var d, q := if x >= y then x - y else x - y + n, if x >= y then v / n - base / n else v / n - base / n - 1;
    assert n * (v / n) - n * (base / n) == n * (v / n - base / n);
    assert n * (v / n - base / n - 1) == n * (v / n - base / n) - n;
    assert v - base == n * q + d;
    IntDivModUnique(v - base, n, q, d);
  }

  lemma IntDivModUnique(x: int, n: nat, q: int, r: int)
    requires 0 <= r < n && x == n * q + r
    ensures x % n == r
  {
    var q' := x / n;
    assert x == n * q' + x % n;
    if q + 1 <= q' {
      IntMulMonotone(n, q + 1, q');
    } else if q' + 1 <= q {
      IntMulMonotone(n, q' + 1, q);
    }
  }

  lemma IntMulMonotone(n: nat, x: int, y: int)
    requires x <= y
    ensures n * x <= n * y
  {
  }

  /** The addresses mapped by the entry of an aligned address are those less than a block beyond it. */
  lemma BlockOffsets(a: Arch, va: nat, depth: nat, v: nat)
    requires depth <= Top(a) && va % Size(depth) == 0
    ensures Region(v % Span(a), depth) == Region(va % Span(a), depth) <==> Offset(a, va, v) < Size(depth)
    ensures Offset(a, va, v) < Size(depth) ==> (v % Span(a)) % Size(depth) == Offset(a, va, v)
  {
    var k, m := LowAligned(a, va, depth);
    OffsetOfLow(a, va, v);
    BlockArithmetic(Size(depth), m, k, v % Span(a));
    DivModUnique(Size(depth) * k, Size(depth), k, 0);
  }

  /** Block `k` of size `s` on a circle of `s * m`: which positions lie less than `s` beyond its start. */
  lemma BlockArithmetic(s: nat, m: nat, k: nat, low: nat)
    requires s > 0 && k < m && low < s * m
    ensures var off := if low >= s * k then low - s * k else low - s * k + s * m;
            (low / s == k <==> off < s) && (off < s ==> low % s == off)
  {
    var q, r := low / s, low % s;
    assert low == s * q + r && 0 <= q;
    BlockQuotient(s, m, k, q, r);
  }

  lemma BlockQuotient(s: nat, m: nat, k: nat, q: nat, r: nat)
    requires r < s && k < m && s * q + r < s * m
    ensures var low := s * q + r;
            var off := if low >= s * k then low - s * k else low - s * k + s * m;
            (q == k <==> off < s) && (off < s ==> r == off)
  {
    Multiples(s, k, m);
    if q > k { Multiples(s, k, q); }
    if q < k { Multiples(s, q, k); }
    BlockLinear(s, s * m, s * k, s * q, r, q, k);
  }

  lemma Multiples(s: nat, i: nat, j: nat)
    requires i < j
    ensures s * i + s <= s * j
  {
    MulMonotone(s, i + 1, j);
    assert s * (i + 1) == s * i + s;
  }

  lemma BlockLinear(s: nat, circle: nat, start: nat, block: nat, r: nat, q: nat, k: nat)
    requires r < s && start + s <= circle && block + r < circle
    requires q > k ==> start + s <= block
    requires q < k ==> block + s <= start
    requires q == k ==> block == start
    ensures var low := block + r;
            var off := if low >= start then low - start else low - start + circle;
            (q == k <==> off < s) && (off < s ==> r == off)
  {
  }

  /** Address bits above the span do not take part in the indices. */
  lemma IndexLow(a: Arch, v: nat, depth: nat)
    requires depth <= Top(a)
    ensures Index(v % Span(a), depth) == Index(v, depth)
  {
    var s := Size(depth);
    var m := SpanFactor(a, depth);
    IndexArithmetic(s, m / ENTRIES, v / Span(a), v % Span(a));
  }

  lemma IndexArithmetic(s: nat, f: nat, high: nat, low: nat)
    requires s > 0
    ensures var v := (s * (ENTRIES * f)) * high + low; (v / s) % ENTRIES == (low / s) % ENTRIES
  {
    var v := (s * (ENTRIES * f)) * high + low;
    var x := low / s;
    assert low == s * x + low % s;
    assert v == s * (ENTRIES * (f * high) + x) + low % s;
    DivModUnique(v, s, ENTRIES * (f * high) + x, low % s);
    DivModUnique(ENTRIES * (f * high) + x, ENTRIES, f * high + x / ENTRIES, x % ENTRIES);
  }

  /** Adding an offset inside an aligned block commutes with truncation. */
  lemma TruncatedSum(a: Arch, phys: nat, depth: nat, off: nat)
    requires depth <= 2 && phys % Size(depth) == 0 && off < Size(depth)
    ensures phys % PhysLimit(a) + off == (phys + off) % PhysLimit(a)
  {
    var n, s := PhysLimit(a), Size(depth);
    AlignedDown(a, phys, depth);
    var k := if depth == 0 then 1 else if depth == 1 then 512 else 0x4_0000;
    assert s == 4096 * k;
    var r, m := (phys % n) / s, Frames(a) / k;
    assert n == s * m && phys % n == s * r;
    if r >= m { MulMonotone(s, m, r); }
    MulMonotone(s, r + 1, m);
    assert s * (r + 1) == s * r + s;
    DivModUnique(phys + off, n, phys / n, phys % n + off);
  }

  // ---------------------------------------------------------------- edits seen through the translation

  /** Writing a block entry maps exactly its block. */
  lemma MapEntry(a: Arch, root: nat, tables: Tables, places: map<nat, Place>, va: nat, pa: nat, attrs: Attrs, depth: nat, t: nat)
    requires SoundTables(a, tables, root, places) && depth <= Top(a) && BlockSize(a, depth) > 0 && Mappable(a, attrs)
    requires va % Size(depth) == 0 && pa % Size(depth) == 0
    requires Reach(a, tables, root, Top(a), va % Span(a), depth) == At(t)
    requires HasTable(tables, t) && !IsValid(tables[t][Index(va, depth)])
    ensures var after := SetEntry(tables, t, Index(va, depth), MakeBlock(a, pa, attrs, depth));
            && SoundTables(a, after, root, places)
            && MapsRange(a, root, tables, after, va, pa, Granted(a, attrs), Size(depth)) && Unmapped(a, root, tables, va, Size(depth))
  {
    hide Decode;
    hide Reach;
    hide Walk;
    hide MakeBlock;
    hide SoundTables;
    hide IsBlock;
    hide Offset;
    var w := MakeBlock(a, pa, attrs, depth);
    IndexLow(a, va, depth);
    MadeBlock(a, pa, attrs, depth);
    InvalidFaults(a, tables[t][Index(va, depth)], depth);
    WriteEntry(a, tables, root, places, va % Span(a), depth, t, w);
    forall v: nat
      ensures Offset(a, va, v) < Size(depth) ==> Translate(a, tables, root, v) == None
      ensures Translate(a, SetEntry(tables, t, Index(va, depth), w), root, v) ==
              if Offset(a, va, v) < Size(depth) then Some(Hit((pa + Offset(a, va, v)) % PhysLimit(a), Granted(a, attrs))) else Translate(a, tables, root, v)
    {
      BlockOffsets(a, va, depth, v);
      if Offset(a, va, v) < Size(depth) { TruncatedSum(a, pa, depth, Offset(a, va, v)); }
    }
  }

  /** Clearing a page entry unmaps exactly its page. */
  lemma ClearEntry(a: Arch, root: nat, tables: Tables, places: map<nat, Place>, va: nat, t: nat)
    requires SoundTables(a, tables, root, places) && va % PAGE_SIZE == 0
    requires Reach(a, tables, root, Top(a), va % Span(a), 0) == At(t)
    requires HasTable(tables, t) && IsValid(tables[t][Index(va, 0)])
    ensures var after := SetEntry(tables, t, Index(va, 0), 0);
            && SoundTables(a, after, root, places)
            && Unmapped(a, root, after, va, PAGE_SIZE)
            && (forall v: nat :: Offset(a, va, v) < PAGE_SIZE ==>
                  Translate(a, tables, root, v) == Some(Hit(EntryPhys(a, tables[t][Index(va, 0)]) + Offset(a, va, v), AccessOf(a, tables[t][Index(va, 0)]))))
            && (forall v: nat :: Offset(a, va, v) >= PAGE_SIZE ==> Translate(a, after, root, v) == Translate(a, tables, root, v))
  {
    hide Decode;
    hide Reach;
    hide Walk;
    hide SoundTables;
    IndexLow(a, va, 0);
    InvalidFaults(a, 0, 0);
    LeafEntry(a, root, tables, places, va % Span(a), t);
    WriteEntry(a, tables, root, places, va % Span(a), 0, t, 0);
    forall v: nat
      ensures Offset(a, va, v) < PAGE_SIZE ==> Translate(a, tables, root, v) == Some(Hit(EntryPhys(a, tables[t][Index(va, 0)]) + Offset(a, va, v), AccessOf(a, tables[t][Index(va, 0)])))
      ensures Translate(a, SetEntry(tables, t, Index(va, 0), 0), root, v) ==
              if Offset(a, va, v) < PAGE_SIZE then None else Translate(a, tables, root, v)
    {
      BlockOffsets(a, va, 0, v);
    }
  }

  /** A valid entry of a leaf table is a leaf to the MMU. */
  lemma LeafEntry(a: Arch, root: nat, tables: Tables, places: map<nat, Place>, low: nat, t: nat)
    requires SoundTables(a, tables, root, places) && low < Span(a)
    requires Reach(a, tables, root, Top(a), low, 0) == At(t) && HasTable(tables, t) && IsValid(tables[t][Index(low, 0)])
    ensures Decode(a, tables[t][Index(low, 0)], 0) == Leaf(EntryPhys(a, tables[t][Index(low, 0)]), AccessOf(a, tables[t][Index(low, 0)]))
  {
    LowRegion(a, low);
    ReachedTable(a, tables, places, root, Top(a), low, 0);
    assert EntryOk(a, tables[t][Index(low, 0)], places[t], Index(low, 0), tables, places);
  }

  /** Offsets from a later base, on the circle. */
  lemma OffsetShift(a: Arch, base: nat, done: nat, v: nat)
    requires done <= Span(a)
    ensures Offset(a, base + done, v) ==
            if Offset(a, base, v) >= done then Offset(a, base, v) - done else Offset(a, base, v) - done + Span(a)
  {
    var n, o := Span(a), Offset(a, base, v);
    var q := (v - base) / n;
    assert v - base == n * q + o;
    if o >= done {
      IntDivModUnique(v - base - done, n, q, o - done);
    } else {
      assert n * (q - 1) == n * q - n;
      IntDivModUnique(v - base - done, n, q - 1, o - done + n);
    }
  }

  /** Mapping the next block after `done` bytes extends the mapped range; it cannot run into itself, since a
      block is mapped only where nothing was. */
  lemma ExtendRange(a: Arch, root: nat, t0: Tables, t1: Tables, t2: Tables, vaddr: nat, paddr: nat, access: Access, done: nat, size: nat)
    requires MapsRange(a, root, t0, t1, vaddr, paddr, access, done) && Unmapped(a, root, t0, vaddr, done) && done <= Span(a)
    requires MapsRange(a, root, t1, t2, vaddr + done, paddr + done, access, size) && Unmapped(a, root, t1, vaddr + done, size) && 0 < size <= Span(a)
    ensures done + size <= Span(a)
    ensures MapsRange(a, root, t0, t2, vaddr, paddr, access, done + size) && Unmapped(a, root, t0, vaddr, done + size)
  {
    OffsetShift(a, vaddr, done, vaddr);
    IntDivModUnique(0, Span(a), 0, 0);
    assert done > 0 ==> Translate(a, t1, root, vaddr).Some?;
    forall v: nat
      ensures Offset(a, vaddr, v) < done + size ==> Translate(a, t0, root, v) == None
      ensures Translate(a, t2, root, v) ==
              if Offset(a, vaddr, v) < done + size then Some(Hit((paddr + Offset(a, vaddr, v)) % PhysLimit(a), access)) else Translate(a, t0, root, v)
    {
      OffsetShift(a, vaddr, done, v);
    }
  }

  /** Two ways of mapping the same range end in the same translation. */
  lemma RangeDetermines(a: Arch, root: nat, before: Tables, after: Tables, after': Tables, vaddr: nat, paddr: nat, access: Access, size: nat)
    requires MapsRange(a, root, before, after, vaddr, paddr, access, size) && MapsRange(a, root, before, after', vaddr, paddr, access, size)
    ensures SameTranslation(a, root, after, after')
  {
    forall v: nat ensures Translate(a, after', root, v) == Translate(a, after, root, v) {
      var o := Offset(a, vaddr, v);
    }
  }

  /** The entry for the address at the depth is in use, or a block above it is. */
  ghost predicate Occupied(a: Arch, tables: Tables, root: nat, vaddr: nat, depth: nat)
    requires depth <= Top(a)
  {
    EntryTaken(a, tables, root, vaddr % Span(a), depth)
  }

  function Max(d: nat, e: nat): nat { if d < e then e else d }

  /** Entries are in use as before, except those that contain the block of `low` at the depth or lie in it. */
  ghost predicate SameElsewhere(a: Arch, root: nat, before: Tables, after: Tables, low: nat, depth: nat) {
    forall v: nat, d: nat :: v < Span(a) && d <= Top(a) && Region(v, Max(d, depth)) != Region(low, Max(d, depth)) ==>
      EntryTaken(a, after, root, v, d) == EntryTaken(a, before, root, v, d)
  }

  lemma ElsewhereSame(a: Arch, root: nat, tables: Tables, low: nat, depth: nat)
    ensures SameElsewhere(a, root, tables, tables, low, depth)
  {
  }

  lemma ElsewhereTable(a: Arch, root: nat, before: Tables, tables: Tables, places: map<nat, Place>, low: nat, depth: nat, t: nat, n: nat, empty: seq<nat>)
    requires SameElsewhere(a, root, before, tables, low, 0)
    requires SoundTables(a, tables, root, places) && low < Span(a) && 0 < depth <= Top(a)
    requires Reach(a, tables, root, Top(a), low, depth) == At(t)
    requires HasTable(tables, t) && !IsValid(tables[t][Index(low, depth)])
    requires n !in tables && n % 4096 == 0 && n < PhysLimit(a)
    requires |empty| == ENTRIES && forall j :: 0 <= j < ENTRIES ==> empty[j] == 0
    ensures SameElsewhere(a, root, before, SetEntry(tables, t, Index(low, depth), MakeTable(a, n))[n := empty], low, 0)
  {
    hide EntryTaken;
    hide SoundTables;
    hide Region;
    var after := SetEntry(tables, t, Index(low, depth), MakeTable(a, n))[n := empty];
    forall v: nat, d: nat | v < Span(a) && d <= Top(a) && Region(v, Max(d, 0)) != Region(low, Max(d, 0))
      ensures EntryTaken(a, after, root, v, d) == EntryTaken(a, before, root, v, d)
    {
      assert Max(d, 0) == d;
      TableElsewhere(a, tables, root, places, low, depth, t, n, empty, v, d);
    }
  }

  lemma ElsewhereEntry(a: Arch, root: nat, before: Tables, tables: Tables, places: map<nat, Place>, low: nat, depth: nat, t: nat, w: nat)
    requires SameElsewhere(a, root, before, tables, low, 0)
    requires SoundTables(a, tables, root, places) && low < Span(a) && depth <= Top(a)
    requires Reach(a, tables, root, Top(a), low, depth) == At(t) && HasTable(tables, t)
    ensures SameElsewhere(a, root, before, SetEntry(tables, t, Index(low, depth), w), low, depth)
  {
    hide EntryTaken;
    hide SoundTables;
    hide Region;
    var after := SetEntry(tables, t, Index(low, depth), w);
    forall v: nat, d: nat | v < Span(a) && d <= Top(a) && Region(v, Max(d, depth)) != Region(low, Max(d, depth))
      ensures EntryTaken(a, after, root, v, d) == EntryTaken(a, before, root, v, d)
    {
      if Region(v, depth) == Region(low, depth) { RegionWidens(v, low, depth, Max(d, depth)); }
      if Region(v, d) == Region(low, d) { RegionWidens(v, low, d, Max(d, depth)); }
      assert Max(d, 0) == d;
      EntryElsewhere(a, tables, root, places, low, depth, t, w, v, d);
    }
  }

  lemma ElsewhereWider(a: Arch, root: nat, before: Tables, after: Tables, low: nat, depth: nat)
    requires SameElsewhere(a, root, before, after, low, 0)
    ensures SameElsewhere(a, root, before, after, low, depth)
  {
    hide EntryTaken;
    hide Region;
    forall v: nat, d: nat | v < Span(a) && d <= Top(a) && Region(v, Max(d, depth)) != Region(low, Max(d, depth))
      ensures EntryTaken(a, after, root, v, d) == EntryTaken(a, before, root, v, d)
    {
      if Region(v, d) == Region(low, d) { RegionWidens(v, low, d, Max(d, depth)); }
      assert Max(d, 0) == d;
    }
  }

  // ---------------------------------------------------------------- the greedy plan

  predicate OnPage(x: nat) {
    x % PAGE_SIZE == 0
  }

  /** The address bits below the span of the tables. */
  function Low(a: Arch, v: nat): (r: nat)
    ensures r < Span(a)
  {
    v % Span(a)
  }

  /** The address is that of a block of the depth. */
  predicate OnBlock(x: nat, depth: nat) {
    x % Size(depth) == 0
  }

  /** A block of the depth exists in the format, fits both addresses and is filled by the remaining bytes. */
  predicate Suits(a: Arch, vaddr: nat, paddr: nat, remaining: nat, depth: nat) {
    BlockSize(a, depth) > 0 && vaddr % Size(depth) == 0 && paddr % Size(depth) == 0 && remaining >= Size(depth)
  }

  /** The largest suitable depth up to `top`; 0 if no larger one suits. */
  function Greedy(a: Arch, vaddr: nat, paddr: nat, remaining: nat, top: nat): (d: nat)
    ensures d <= top && (d > 0 ==> Suits(a, vaddr, paddr, remaining, d))
    ensures forall e :: d < e <= top ==> !Suits(a, vaddr, paddr, remaining, e)
  {
    if top == 0 || Suits(a, vaddr, paddr, remaining, top) then top else Greedy(a, vaddr, paddr, remaining, top - 1)
  }

  /** The depth the kernel maps at next. */
  function Choice(a: Arch, vaddr: nat, paddr: nat, remaining: nat): (d: nat)
    ensures d <= Top(a)
  {
    Greedy(a, vaddr, paddr, remaining, Top(a))
  }

  /** 1 GB, 2 MB or 4 KB: the largest of the three to which both addresses are aligned and which the remaining bytes
      fill, as a depth. */
  function Largest(vaddr: nat, paddr: nat, remaining: nat): nat {
    if vaddr % 0x4000_0000 == 0 && paddr % 0x4000_0000 == 0 && remaining >= 0x4000_0000 then 2
    else if vaddr % 0x20_0000 == 0 && paddr % 0x20_0000 == 0 && remaining >= 0x20_0000 then 1
    else 0
  }

  lemma ChoiceMeans(a: Arch, vaddr: nat, paddr: nat, remaining: nat)
    ensures Choice(a, vaddr, paddr, remaining) == Largest(vaddr, paddr, remaining)
  {
    assert Size(1) == 0x20_0000 && Size(2) == 0x4000_0000;
    assert Suits(a, vaddr, paddr, remaining, 2) <==> vaddr % 0x4000_0000 == 0 && paddr % 0x4000_0000 == 0 && remaining >= 0x4000_0000;
    assert Suits(a, vaddr, paddr, remaining, 1) <==> vaddr % 0x20_0000 == 0 && paddr % 0x20_0000 == 0 && remaining >= 0x20_0000;
    assert !Suits(a, vaddr, paddr, remaining, 3);
  }

  lemma ChoiceFacts(a: Arch, vaddr: nat, paddr: nat, remaining: nat)
    requires OnPage(vaddr) && OnPage(paddr) && remaining >= PAGE_SIZE
    ensures var d := Choice(a, vaddr, paddr, remaining);
            Suits(a, vaddr, paddr, remaining, d) && 0 < Size(d) <= remaining && Size(d) % PAGE_SIZE == 0 && Size(d) <= Span(a)
  {
    SuitsFacts(a, vaddr, paddr, remaining, Choice(a, vaddr, paddr, remaining));
  }

  /** No entry that the greedy plan for the range wants is in use. */
  ghost predicate PlanFree(a: Arch, tables: Tables, root: nat, vaddr: nat, paddr: nat, size: nat)
    decreases size
  {
    var d := Choice(a, vaddr, paddr, size);
    0 < Size(d) <= size ==>
      !Occupied(a, tables, root, vaddr, d) && PlanFree(a, tables, root, vaddr + Size(d), paddr + Size(d), size - Size(d))
  }

  /** No page entry of the range is in use. */
  ghost predicate PagesFree(a: Arch, tables: Tables, root: nat, vaddr: nat, pages: nat) {
    forall k: nat :: k < pages ==> !Occupied(a, tables, root, vaddr + PAGE_SIZE * k, 0)
  }

  lemma SameTranslationMaps(a: Arch, root: nat, t0: Tables, t1: Tables, t2: Tables, vaddr: nat, paddr: nat, access: Access, size: nat)
    requires SameTranslation(a, root, t0, t1) && MapsRange(a, root, t1, t2, vaddr, paddr, access, size) && Unmapped(a, root, t1, vaddr, size)
    ensures MapsRange(a, root, t0, t2, vaddr, paddr, access, size) && Unmapped(a, root, t0, vaddr, size)
  {
  }

  class AddressSpace {
    const a: Arch
    const root: nat
    var tables: Tables
    ghost var places: map<nat, Place>
    /** How often the memory for a table could not be had. */
    ghost var failures: nat

    ghost predicate Valid()
      reads this
    {
      SoundTables(a, tables, root, places)
    }

    /** An address space with an empty top-level table. */
    constructor (arch: Arch, top: nat)
      ensures Valid() && a == arch && root == top && forall v: nat :: Translate(a, tables, root, v) == None
    {
      a, root := arch, top;
      var empty := EmptyTable();
      tables := map[top := empty];
      places := map[top := Place(Top(arch), 0)];
      new;
      forall v: nat ensures Translate(a, tables, root, v) == None {
        InvalidFaults(a, 0, Top(a));
      }
    }

    static method EmptyTable() returns (empty: seq<nat>)
      ensures |empty| == ENTRIES && forall j :: 0 <= j < ENTRIES ==> empty[j] == 0
    {
      empty := seq(ENTRIES, _ => 0);
    }

    /** A page for a new table, page-aligned and not a table yet; 0 when memory is exhausted. */
    method AllocTable() returns (n: nat)
      modifies this`failures
      ensures n != 0 ==> n % PAGE_SIZE == 0 && n < PhysLimit(a) && n !in tables
      ensures failures == old(failures) + if n == 0 then 1 else 0
    {
      n := *;
      if n % PAGE_SIZE != 0 || n >= PhysLimit(a) || n in tables { n := 0; }
      if n == 0 { failures := failures + 1; }
    }

    /** Walk to the table at the depth, creating missing tables if asked to. The walk changes no
        translation. It fails on a block in the way, on a missing table it may not create, and when memory
        for a table is exhausted. */
    method WalkCreate(vaddr: nat, depth: nat, create: bool) returns (found: bool, t: nat, ghost exhausted: bool)
      requires Valid() && depth <= Top(a)
      modifies this
      ensures Valid() && SameTranslation(a, root, old(tables), tables)
      ensures found ==> HasTable(tables, t) && Reach(a, tables, root, Top(a), vaddr % Span(a), depth) == At(t)
      ensures found && !Reach(a, old(tables), root, Top(a), vaddr % Span(a), depth).At? ==> !IsValid(tables[t][Index(vaddr, depth)])
      ensures found && Reach(a, old(tables), root, Top(a), vaddr % Span(a), depth).At? ==> tables == old(tables)
      ensures !create ==> tables == old(tables) && !exhausted && (found <==> Reach(a, tables, root, Top(a), vaddr % Span(a), depth).At?)
      ensures !found && !exhausted ==> tables == old(tables)
      ensures create ==> (found || exhausted <==> !Reach(a, old(tables), root, Top(a), vaddr % Span(a), depth).Blocked?)
      ensures exhausted ==> !found && Reach(a, old(tables), root, Top(a), vaddr % Span(a), depth).Missing?
      ensures exhausted ==> Reach(a, tables, root, Top(a), vaddr % Span(a), depth).Missing?
      ensures failures == old(failures) + if exhausted then 1 else 0
      ensures SameElsewhere(a, root, old(tables), tables, Low(a, vaddr), 0)
    {
      hide Decode;
      hide WellPlaced;
      hide Walk;
      hide SameElsewhere;
      ghost var low, before := vaddr % Span(a), tables;
      ElsewhereSame(a, root, tables, low, 0);
      t, exhausted := root, false;
      var d := Top(a);
      LowRegion(a, low);
      while d > depth
        invariant depth <= d <= Top(a) && Valid() && !exhausted
        invariant SameTranslation(a, root, before, tables)
        invariant Reach(a, tables, root, Top(a), low, d) == At(t)
        invariant tables == before || (!Reach(a, before, root, Top(a), low, depth).At? && !Reach(a, before, root, Top(a), low, depth).Blocked?)
        invariant tables != before ==> HasTable(tables, t) && forall j :: 0 <= j < ENTRIES ==> tables[t][j] == 0
        invariant !create ==> tables == before
        invariant failures == old(failures)
        invariant SameElsewhere(a, root, before, tables, low, 0)
      {
        ReachedTable(a, tables, places, root, Top(a), low, d);
        TableSize(a, tables, places, t);
        ReachOneMore(a, tables, root, Top(a), low, d);
        IndexLow(a, vaddr, d);
        var i := Index(vaddr, d);
        var w := tables[t][i];
        if !IsValid(w) {
          ReachStops(a, tables, root, Top(a), low, d, depth);
          if !create { return false, 0, false; }
          var n := AllocTable();
          if n == 0 { return false, 0, true; }
          var empty := EmptyTable();
          WriteTable(a, tables, root, places, low, d, t, n, empty);
          ElsewhereTable(a, root, before, tables, places, low, d, t, n, empty);
          SameLow(a, root, tables, SetEntry(tables, t, i, MakeTable(a, n))[n := empty]);
          tables := SetEntry(tables, t, i, MakeTable(a, n))[n := empty];
          places := places[n := Place(d - 1, Region(low, d))];
          t := n;
          assert tables[t] == empty;
        } else if IsBlock(a, w, d) {
          ReachStops(a, tables, root, Top(a), low, d, depth);
          return false, 0, false;
        } else {
          t := EntryPhys(a, w);
        }
        d := d - 1;
      }
      found := true;
      ReachedTable(a, tables, places, root, Top(a), low, depth);
      TableSize(a, tables, places, t);
    }
  
    /** Map one block (a page at depth 0) where the kernel's walk finds the entry free. */
    method MapBlock(vaddr: nat, paddr: nat, attrs: Attrs, depth: nat) returns (ok: bool, ghost exhausted: bool)
      requires Valid() && depth <= Top(a) && BlockSize(a, depth) > 0 && Mappable(a, attrs)
      requires OnBlock(vaddr, depth) && OnBlock(paddr, depth)
      modifies this
      ensures Valid()
      ensures ok ==> MapsRange(a, root, old(tables), tables, vaddr, paddr, Granted(a, attrs), Size(depth)) && Unmapped(a, root, old(tables), vaddr, Size(depth))
      ensures !ok ==> SameTranslation(a, root, old(tables), tables) && (exhausted || tables == old(tables))
      ensures (ok || exhausted <==> !Occupied(a, old(tables), root, vaddr, depth)) && !(ok && exhausted)
      ensures exhausted ==> Reach(a, old(tables), root, Top(a), Low(a, vaddr), depth).Missing? && Reach(a, tables, root, Top(a), Low(a, vaddr), depth).Missing?
      ensures failures == old(failures) + if exhausted then 1 else 0
      ensures SameElsewhere(a, root, old(tables), tables, Low(a, vaddr), depth)
    {
      hide SoundTables;
      hide MapsRange;
      hide Unmapped;
      hide SameTranslation;
      hide SameElsewhere;
      hide Reach;
      var found, t;
      found, t, exhausted := WalkCreate(vaddr, depth, true);
      IndexLow(a, vaddr, depth);
      ElsewhereWider(a, root, old(tables), tables, vaddr % Span(a), depth);
      if !found || IsValid(tables[t][Index(vaddr, depth)]) { return false, exhausted; }
      ghost var mid := tables;
      MapEntry(a, root, tables, places, vaddr, paddr, attrs, depth, t);
      ElsewhereEntry(a, root, old(tables), tables, places, vaddr % Span(a), depth, t, MakeBlock(a, paddr, attrs, depth));
      tables := SetEntry(tables, t, Index(vaddr, depth), MakeBlock(a, paddr, attrs, depth));
      SameTranslationMaps(a, root, old(tables), mid, tables, vaddr, paddr, Granted(a, attrs), Size(depth));
      ok := true;
    }

    /** Map one 4 KB page. */
    method MapPage(vaddr: nat, paddr: nat, attrs: Attrs) returns (ok: bool, ghost exhausted: bool)
      requires Valid() && Mappable(a, attrs)
      modifies this
      ensures Valid()
      ensures vaddr % PAGE_SIZE != 0 || paddr % PAGE_SIZE != 0 ==> !ok && !exhausted && tables == old(tables)
      ensures ok ==> MapsRange(a, root, old(tables), tables, vaddr, paddr, Granted(a, attrs), PAGE_SIZE) && Unmapped(a, root, old(tables), vaddr, PAGE_SIZE)
      ensures !ok ==> SameTranslation(a, root, old(tables), tables)
      ensures vaddr % PAGE_SIZE == 0 && paddr % PAGE_SIZE == 0 ==>
                (ok || exhausted <==> !Occupied(a, old(tables), root, vaddr, 0)) && !(ok && exhausted)
      ensures !ok && !exhausted ==> tables == old(tables)
      ensures exhausted ==> Reach(a, old(tables), root, Top(a), Low(a, vaddr), 0).Missing?
      ensures failures == old(failures) + if exhausted then 1 else 0
      ensures SameElsewhere(a, root, old(tables), tables, Low(a, vaddr), 0)
    {
      ElsewhereSame(a, root, tables, vaddr % Span(a), 0);
      if vaddr % PAGE_SIZE != 0 || paddr % PAGE_SIZE != 0 { return false, false; }
      ok, exhausted := MapBlock(vaddr, paddr, attrs, 0);
    }

    /** The largest block that both addresses are aligned to and that the remaining bytes fill. */
    method BestDepth(vaddr: nat, paddr: nat, remaining: nat) returns (depth: nat)
      requires OnPage(vaddr) && OnPage(paddr) && remaining >= PAGE_SIZE
      ensures depth == Choice(a, vaddr, paddr, remaining) == Largest(vaddr, paddr, remaining) && Suits(a, vaddr, paddr, remaining, depth)
    {
      hide Largest;
      ChoiceMeans(a, vaddr, paddr, remaining);
      ChoiceFacts(a, vaddr, paddr, remaining);
      depth := Top(a);
      while depth > 0 && !Suits(a, vaddr, paddr, remaining, depth)
        invariant Choice(a, vaddr, paddr, remaining) == Greedy(a, vaddr, paddr, remaining, depth)
      {
        depth := depth - 1;
      }
    }

    /** Map a range with the largest blocks that fit, from the front. Unless memory is exhausted the call
        succeeds if and only if the range is no longer than the address space and no entry that the greedy plan
        wants was in use. On success every address of the range, and no other, has its new translation, exactly
        as if each page had been mapped on its own. On failure a leading part is mapped. A range that reaches
        the end of the 64-bit address space wraps, and the call succeeds without mapping anything. */
    method MapRange(vaddr: nat, paddr: nat, size: nat, attrs: Attrs) returns (ok: bool, ghost exhausted: bool)
      requires Valid() && Mappable(a, attrs) && vaddr < WORD && size < WORD
      modifies this
      ensures Valid() && !(ok && exhausted)
      ensures !PagesAligned(vaddr, paddr, size) ==> !ok && tables == old(tables)
      ensures ok && vaddr + size < WORD ==>
                MapsRange(a, root, old(tables), tables, vaddr, paddr, Granted(a, attrs), size) && Unmapped(a, root, old(tables), vaddr, size)
      ensures ok && vaddr + size >= WORD ==> tables == old(tables)
      ensures !ok && PagesAligned(vaddr, paddr, size) ==> PartlyMapped(a, root, old(tables), tables, vaddr, paddr, Granted(a, attrs), size, exhausted)
      ensures PagesAligned(vaddr, paddr, size) && vaddr + size >= WORD ==> ok
      ensures PagesAligned(vaddr, paddr, size) && vaddr + size < WORD && !exhausted ==>
                (ok <==> size <= Span(a) && PlanFree(a, old(tables), root, vaddr, paddr, size))
      ensures failures == old(failures) + if exhausted then 1 else 0
    {
      hide SoundTables;
      hide MapsRange;
      hide Unmapped;
      hide PartlyMapped;
      hide PlanFree;
      if !PagesAligned(vaddr, paddr, size) { return false, false; }
      var end := (vaddr + size) % WORD;
      ok, exhausted := MapUpTo(vaddr, paddr, end, attrs);
    }

    /** The loop over the greedy plan, up to an end that may lie at or before the start. */
    method MapUpTo(vaddr: nat, paddr: nat, end: nat, attrs: Attrs) returns (ok: bool, ghost exhausted: bool)
      requires Valid() && Mappable(a, attrs) && OnPage(vaddr) && OnPage(paddr) && OnPage(end)
      modifies this
      ensures Valid() && !(ok && exhausted)
      ensures end <= vaddr ==> ok && tables == old(tables)
      ensures var size := if end <= vaddr then 0 else end - vaddr;
              && (ok ==> MapsRange(a, root, old(tables), tables, vaddr, paddr, Granted(a, attrs), size) && Unmapped(a, root, old(tables), vaddr, size))
              && (!ok ==> PartlyMapped(a, root, old(tables), tables, vaddr, paddr, Granted(a, attrs), size, exhausted))
              && (!exhausted ==> (ok <==> size <= Span(a) && PlanFree(a, old(tables), root, vaddr, paddr, size)))
      ensures failures == old(failures) + if exhausted then 1 else 0
    {
      hide SoundTables;
      hide MapsRange;
      hide Unmapped;
      hide SameTranslation;
      hide Occupied;
      hide PartlyMapped;
      hide Unaltered;
      hide SameElsewhere;
      hide PlanFree;
      hide Suits;
      hide OnBlock;
      hide OnPage;
      hide Low;
      hide Size;
      hide BlockSize;
      exhausted := false;
      ghost var size := if end <= vaddr then 0 else end - vaddr;
      var va, pa := vaddr, paddr;
      NothingMapped(a, root, tables, vaddr, paddr, Granted(a, attrs));
      UnalteredSame(a, root, tables, vaddr);
      while va < end
        invariant Valid() && vaddr <= va && pa == paddr + (va - vaddr) && !exhausted && (va <= end || va == vaddr)
        invariant failures == old(failures)
        invariant OnPage(va) && OnPage(pa) && va - vaddr <= Span(a)
        invariant va == vaddr ==> tables == old(tables)
        invariant MapsRange(a, root, old(tables), tables, vaddr, paddr, Granted(a, attrs), va - vaddr) && Unmapped(a, root, old(tables), vaddr, va - vaddr)
        invariant Unaltered(a, root, old(tables), tables, vaddr, va - vaddr)
        invariant size <= Span(a) ==>
                    (PlanFree(a, old(tables), root, vaddr, paddr, size) <==> PlanFree(a, old(tables), root, va, pa, size - (va - vaddr)))
        decreases end - va
      {
        PageLeft(va, end);
        var depth := BestDepth(va, pa, end - va);
        SuitsBlock(a, va, pa, end - va, depth);
        PlanStep(a, old(tables), root, va, pa, end - va);
        if size <= Span(a) { NextEntry(a, root, old(tables), tables, vaddr, va - vaddr, depth); }
        ghost var mid := tables;
        ok, exhausted := MapBlock(va, pa, attrs, depth);
        if !ok {
          MapsThenSame(a, root, old(tables), mid, tables, vaddr, paddr, Granted(a, attrs), va - vaddr);
          StoppedAt(a, root, old(tables), tables, vaddr, paddr, Granted(a, attrs), size, va - vaddr, exhausted);
          return false, exhausted;
        }
        ExtendRange(a, root, old(tables), mid, tables, vaddr, paddr, Granted(a, attrs), va - vaddr, Size(depth));
        UnalteredStep(a, root, old(tables), mid, tables, vaddr, va - vaddr, depth);
        va := va + Size(depth);
        pa := pa + Size(depth);
      }
      PlanDone(a, old(tables), root, va, pa);
      ok := true;
    }

    /** The reference: map each page of the range on its own. Unless memory is exhausted it succeeds if and
        only if no page of the range was in use and the range is no longer than the address space. */
    method MapPages(vaddr: nat, paddr: nat, pages: nat, attrs: Attrs) returns (ok: bool, ghost exhausted: bool)
      requires Valid() && Mappable(a, attrs)
      requires vaddr % PAGE_SIZE == 0 && paddr % PAGE_SIZE == 0
      modifies this
      ensures Valid() && !(ok && exhausted)
      ensures ok ==> MapsRange(a, root, old(tables), tables, vaddr, paddr, Granted(a, attrs), PAGE_SIZE * pages)
      ensures !ok ==> exists k: nat :: k < pages && MapsRange(a, root, old(tables), tables, vaddr, paddr, Granted(a, attrs), PAGE_SIZE * k)
      ensures !exhausted ==> (ok <==> PAGE_SIZE * pages <= Span(a) && PagesFree(a, old(tables), root, vaddr, pages))
      ensures failures == old(failures) + if exhausted then 1 else 0
    {
      hide SoundTables;
      hide MapsRange;
      hide Unmapped;
      hide SameTranslation;
      hide Occupied;
      hide Unaltered;
      hide SameElsewhere;
      NothingMapped(a, root, tables, vaddr, paddr, Granted(a, attrs));
      UnalteredSame(a, root, tables, vaddr);
      exhausted := false;
      for k := 0 to pages
        invariant Valid() && PAGE_SIZE * k <= Span(a) && !exhausted && failures == old(failures)
        invariant MapsRange(a, root, old(tables), tables, vaddr, paddr, Granted(a, attrs), PAGE_SIZE * k) && Unmapped(a, root, old(tables), vaddr, PAGE_SIZE * k)
        invariant Unaltered(a, root, old(tables), tables, vaddr, PAGE_SIZE * k)
        invariant PagesFree(a, old(tables), root, vaddr, k)
      {
        ghost var mid := tables;
        PageInSpan(a);
        MulMonotone(PAGE_SIZE, k + 1, pages);
        if PAGE_SIZE * (k + 1) <= Span(a) { NextEntry(a, root, old(tables), tables, vaddr, PAGE_SIZE * k, 0); }
        ok, exhausted := MapPage(vaddr + PAGE_SIZE * k, paddr + PAGE_SIZE * k, attrs);
        if !ok {
          MapsThenSame(a, root, old(tables), mid, tables, vaddr, paddr, Granted(a, attrs), PAGE_SIZE * k);
          return false, exhausted;
        }
        ExtendRange(a, root, old(tables), mid, tables, vaddr, paddr, Granted(a, attrs), PAGE_SIZE * k, PAGE_SIZE);
        UnalteredStep(a, root, old(tables), mid, tables, vaddr, PAGE_SIZE * k, 0);
      }
      ok := true;
    }

    /** Unmap one page. Only a page entry can be cleared: an address mapped by a block is left as it is. */
    method UnmapPage(vaddr: nat) returns (ok: bool)
      requires Valid()
      modifies this
      ensures Valid()
      ensures vaddr % PAGE_SIZE != 0 ==> !ok
      ensures !ok ==> tables == old(tables)
      ensures ok ==> Unmapped(a, root, tables, vaddr, PAGE_SIZE) && Translate(a, old(tables), root, vaddr).Some?
      ensures ok ==> forall v: nat :: Offset(a, vaddr, v) >= PAGE_SIZE ==> Translate(a, tables, root, v) == Translate(a, old(tables), root, v)
      ensures vaddr % PAGE_SIZE == 0 ==>
                (ok <==> Translate(a, old(tables), root, vaddr).Some? && !Reach(a, old(tables), root, Top(a), vaddr % Span(a), 0).Blocked?)
      ensures ok ==>
        var r := Reach(a, old(tables), root, Top(a), Low(a, vaddr), 0);
        r.At? && HasTable(old(tables), r.table) && tables == SetEntry(old(tables), r.table, Index(vaddr, 0), 0)
    {
      if vaddr % PAGE_SIZE != 0 { return false; }
      hide SoundTables;
      hide Reach;
      hide Walk;
      var found, t;
      ghost var exhausted;
      found, t, exhausted := WalkCreate(vaddr, 0, false);
      PageLookup(a, root, tables, places, vaddr);
      if !found || !IsValid(tables[t][Index(vaddr, 0)]) { return false; }
      ClearEntry(a, root, tables, places, vaddr, t);
      tables := SetEntry(tables, t, Index(vaddr, 0), 0);
      ok := true;
    }

    /** The physical address of a page-mapped address; 0 for an unmapped one, and for one mapped by a block. */
    method VirtToPhys(vaddr: nat) returns (r: nat)
      requires Valid()
      ensures Reach(a, tables, root, Top(a), vaddr % Span(a), 0).Blocked? ==> r == 0 && Translate(a, tables, root, vaddr).Some?
      ensures !Reach(a, tables, root, Top(a), vaddr % Span(a), 0).Blocked? ==>
                match Translate(a, tables, root, vaddr) case Some(hit) => r == hit.phys case None => r == 0
    {
      var t := root;
      var d := Top(a);
      ghost var low := vaddr % Span(a);
      PageLookup(a, root, tables, places, vaddr);
      while d > 0
        invariant 0 <= d <= Top(a) && Reach(a, tables, root, Top(a), low, d) == At(t)
      {
        LowRegion(a, low);
        ReachedTable(a, tables, places, root, Top(a), low, d);
        ReachOneMore(a, tables, root, Top(a), low, d);
        IndexLow(a, vaddr, d);
        var w := tables[t][Index(vaddr, d)];
        if !IsValid(w) || IsBlock(a, w, d) {
          ReachStops(a, tables, root, Top(a), low, d, 0);
          return 0;
        }
        t := EntryPhys(a, w);
        d := d - 1;
      }
      LowRegion(a, low);
      ReachedTable(a, tables, places, root, Top(a), low, 0);
      if !IsValid(tables[t][Index(vaddr, 0)]) { return 0; }
      r := EntryPhys(a, tables[t][Index(vaddr, 0)]) + vaddr % PAGE_SIZE;
    }
  }

  /** A leading part of the range is mapped, up to where a table is missing and memory is exhausted, or the entry that the plan wants
      next is in use. */
  ghost predicate PartlyMapped(a: Arch, root: nat, before: Tables, after: Tables, vaddr: nat, paddr: nat, access: Access, size: nat, exhausted: bool) {
    exists done: nat ::
      && done < size && MapsRange(a, root, before, after, vaddr, paddr, access, done)
      && var d := Choice(a, vaddr + done, paddr + done, size - done);
         if exhausted then Reach(a, after, root, Top(a), Low(a, vaddr + done), d).Missing? else Occupied(a, after, root, vaddr + done, d)
  }

  lemma StoppedAt(a: Arch, root: nat, before: Tables, after: Tables, vaddr: nat, paddr: nat, access: Access, size: nat, done: nat, exhausted: bool)
    requires done < size && MapsRange(a, root, before, after, vaddr, paddr, access, done)
    requires var d := Choice(a, vaddr + done, paddr + done, size - done);
             if exhausted then Reach(a, after, root, Top(a), Low(a, vaddr + done), d).Missing? else Occupied(a, after, root, vaddr + done, d)
    ensures PartlyMapped(a, root, before, after, vaddr, paddr, access, size, exhausted)
  {
    hide MapsRange;
    hide Occupied;
  }

  /** Behind the mapped part every entry is in use exactly if it was before. */
  ghost predicate Unaltered(a: Arch, root: nat, before: Tables, after: Tables, vaddr: nat, done: nat) {
    forall x: nat, d: nat :: d <= Top(a) && OnBlock(x, d) && done <= Offset(a, vaddr, x) && Offset(a, vaddr, x) + Size(d) <= Span(a) ==>
      Occupied(a, after, root, x, d) == Occupied(a, before, root, x, d)
  }

  lemma UnalteredStep(a: Arch, root: nat, t0: Tables, t1: Tables, t2: Tables, vaddr: nat, done: nat, e: nat)
    requires Unaltered(a, root, t0, t1, vaddr, done) && e <= Top(a) && OnBlock(vaddr + done, e) && done + Size(e) <= Span(a)
    requires SameElsewhere(a, root, t1, t2, Low(a, vaddr + done), e)
    ensures Unaltered(a, root, t0, t2, vaddr, done + Size(e))
  {
    hide EntryTaken;
    hide Region;
    hide Size;
    forall x: nat, d: nat | d <= Top(a) && OnBlock(x, d) && done + Size(e) <= Offset(a, vaddr, x) && Offset(a, vaddr, x) + Size(d) <= Span(a)
      ensures Occupied(a, t2, root, x, d) == Occupied(a, t0, root, x, d)
    {
      BlocksApart(a, vaddr, done, e, x, d);
      assert x % Span(a) < Span(a);
    }
  }

  /** Two aligned blocks of a range, one behind the other, lie in different entries of the larger depth. */
  lemma BlocksApart(a: Arch, vaddr: nat, done: nat, e: nat, x: nat, d: nat)
    requires e <= Top(a) && d <= Top(a) && (vaddr + done) % Size(e) == 0 && x % Size(d) == 0
    requires done + Size(e) <= Offset(a, vaddr, x) && Offset(a, vaddr, x) + Size(d) <= Span(a)
    ensures Region(x % Span(a), Max(d, e)) != Region((vaddr + done) % Span(a), Max(d, e))
  {
    hide Region;
    hide Size;
    var u := vaddr + done;
    OffsetBetween(a, vaddr, done, x);
    if d <= e {
      BlockOffsets(a, u, e, x);
    } else {
      BlockOffsets(a, x, d, u);
    }
  }

  lemma OffsetBetween(a: Arch, vaddr: nat, done: nat, x: nat)
    requires done < Offset(a, vaddr, x)
    ensures Offset(a, vaddr + done, x) == Offset(a, vaddr, x) - done
    ensures Offset(a, x, vaddr + done) == done - Offset(a, vaddr, x) + Span(a)
  {
    var u := vaddr + done;
    OffsetShift(a, vaddr, done, x);
    OffsetOfLow(a, u, x);
    OffsetOfLow(a, x, u);
  }

  lemma OffsetOfDone(a: Arch, vaddr: nat, done: nat)
    requires done < Span(a)
    ensures Offset(a, vaddr, vaddr + done) == done
  {
    IntDivModUnique(done, Span(a), 0, done);
  }

  lemma UnalteredSame(a: Arch, root: nat, tables: Tables, vaddr: nat)
    ensures Unaltered(a, root, tables, tables, vaddr, 0)
  {
  }

  /** The plan's next entry is in use now exactly if it was at the start. */
  lemma NextEntry(a: Arch, root: nat, before: Tables, after: Tables, vaddr: nat, done: nat, depth: nat)
    requires Unaltered(a, root, before, after, vaddr, done) && depth <= Top(a) && OnBlock(vaddr + done, depth)
    requires done + Size(depth) <= Span(a) && Size(depth) > 0
    ensures Occupied(a, after, root, vaddr + done, depth) == Occupied(a, before, root, vaddr + done, depth)
  {
    OffsetOfDone(a, vaddr, done);
  }

  // ---------------------------------------------------------------- greedy against page by page

  /** The entry for the block at the depth points to a table. */
  ghost predicate TableAt(a: Arch, tables: Tables, root: nat, vaddr: nat, depth: nat)
    requires depth <= Top(a)
  {
    var low := vaddr % Span(a);
    var r := Reach(a, tables, root, Top(a), low, depth);
    r.At? && HasTable(tables, r.table) && IsValid(tables[r.table][Index(low, depth)])
    && depth > 0 && !IsBlock(a, tables[r.table][Index(low, depth)], depth)
  }

  /** No block entry that the greedy plan wants points to a table. */
  ghost predicate PlanTableless(a: Arch, tables: Tables, root: nat, vaddr: nat, paddr: nat, size: nat)
    decreases size
  {
    var d := Choice(a, vaddr, paddr, size);
    0 < Size(d) <= size ==>
      !TableAt(a, tables, root, vaddr, d) && PlanTableless(a, tables, root, vaddr + Size(d), paddr + Size(d), size - Size(d))
  }

  /** Where a block entry is free, so are the page entries below it; where it is in use but no table, the first of them is too. */
  lemma BlockAndPages(a: Arch, tables: Tables, root: nat, places: map<nat, Place>, vaddr: nat, depth: nat, x: nat)
    requires SoundTables(a, tables, root, places) && depth <= Top(a) && OnBlock(vaddr, depth) && Offset(a, vaddr, x) < Size(depth)
    ensures !Occupied(a, tables, root, vaddr, depth) ==> !Occupied(a, tables, root, x, 0)
    ensures Occupied(a, tables, root, vaddr, depth) && !TableAt(a, tables, root, vaddr, depth) ==> Occupied(a, tables, root, x, 0)
  {
    hide Decode;
    hide Size;
    hide Region;
    hide EntryOk;
    var low, u := vaddr % Span(a), x % Span(a);
    BlockOffsets(a, vaddr, depth, x);
    RegionWidens(u, low, depth, depth + 1);
    SamePath(a, tables, root, Top(a), u, low, depth);
    var r := Reach(a, tables, root, Top(a), u, depth);
    LowRegion(a, u);
    if r.At? {
      ReachedTable(a, tables, places, root, Top(a), u, depth);
      if depth > 0 {
        ReachOneMore(a, tables, root, Top(a), u, depth);
        if !Reach(a, tables, root, Top(a), u, depth - 1).At? { ReachStops(a, tables, root, Top(a), u, depth, 0); }
      }
    } else {
      ReachFails(a, tables, root, Top(a), u, depth, 0);
    }
  }

  /** A walk that does not reach a table does not get below it either. */
  lemma {:induction false} ReachFails(a: Arch, tables: Tables, cur: nat, depth: nat, v: nat, target: nat, lower: nat)
    requires lower <= target <= depth && !Reach(a, tables, cur, depth, v, target).At?
    ensures Reach(a, tables, cur, depth, v, lower) == Reach(a, tables, cur, depth, v, target)
    decreases depth
  {
    if HasTable(tables, cur) {
      var w := tables[cur][Index(v, depth)];
      if IsValid(w) && !IsBlock(a, w, depth) { ReachFails(a, tables, EntryPhys(a, w), depth - 1, v, target, lower); }
    }
  }

  /** The greedy plan finds its entries free exactly when all pages are free and no table, necessarily one
      without any page in use, stands where the plan wants a block: only then does mapping page by page
      succeed where mapping the range fails. */
  lemma {:induction false} PlanAgainstPages(a: Arch, tables: Tables, root: nat, places: map<nat, Place>, vaddr: nat, paddr: nat, pages: nat)
    requires SoundTables(a, tables, root, places) && OnPage(vaddr) && OnPage(paddr)
    ensures PlanFree(a, tables, root, vaddr, paddr, PAGE_SIZE * pages) <==>
            PagesFree(a, tables, root, vaddr, pages) && PlanTableless(a, tables, root, vaddr, paddr, PAGE_SIZE * pages)
    decreases pages
  {
    hide Occupied;
    hide TableAt;
    hide SoundTables;
    hide Suits;
    hide OnPage;
    hide OnBlock;
    hide Choice;
    hide PagesFree;
    hide Size;
    if pages > 0 {
      var size := PAGE_SIZE * pages;
      var d := Choice(a, vaddr, paddr, size);
      var n := ChosenPages(a, vaddr, paddr, pages);
      PlanAgainstPages(a, tables, root, places, vaddr + Size(d), paddr + Size(d), pages - n);
      SplitPages(a, tables, root, vaddr, n, pages);
      PagesOfBlock(a, tables, root, places, vaddr, d, n);
      assert PAGE_SIZE * (pages - n) == size - Size(d);
    } else {
      NoPages(a, tables, root, vaddr, paddr);
    }
  }

  lemma NoPages(a: Arch, tables: Tables, root: nat, vaddr: nat, paddr: nat)
    ensures PlanFree(a, tables, root, vaddr, paddr, PAGE_SIZE * 0) && PlanTableless(a, tables, root, vaddr, paddr, PAGE_SIZE * 0)
    ensures PagesFree(a, tables, root, vaddr, 0)
  {
  }

  lemma ChosenPages(a: Arch, vaddr: nat, paddr: nat, pages: nat) returns (n: nat)
    requires OnPage(vaddr) && OnPage(paddr) && pages > 0
    ensures var d := Choice(a, vaddr, paddr, PAGE_SIZE * pages);
            && Size(d) == PAGE_SIZE * n && 0 < n <= pages && 0 < Size(d) <= Span(a) && OnBlock(vaddr, d)
            && OnPage(vaddr + Size(d)) && OnPage(paddr + Size(d))
  {
    hide OnPage;
    var size := PAGE_SIZE * pages;
    var d := Choice(a, vaddr, paddr, size);
    ChoiceFacts(a, vaddr, paddr, size);
    SuitsBlock(a, vaddr, paddr, size, d);
    n := Size(d) / PAGE_SIZE;
  }

  lemma SplitPages(a: Arch, tables: Tables, root: nat, vaddr: nat, n: nat, pages: nat)
    requires n <= pages
    ensures PagesFree(a, tables, root, vaddr, pages) <==>
            PagesFree(a, tables, root, vaddr, n) && PagesFree(a, tables, root, vaddr + PAGE_SIZE * n, pages - n)
  {
    hide Occupied;
    var mid := vaddr + PAGE_SIZE * n;
    if PagesFree(a, tables, root, vaddr, pages) {
      forall k: nat | k < pages - n ensures !Occupied(a, tables, root, mid + PAGE_SIZE * k, 0) {
        assert mid + PAGE_SIZE * k == vaddr + PAGE_SIZE * (n + k);
      }
    }
    if PagesFree(a, tables, root, vaddr, n) && PagesFree(a, tables, root, mid, pages - n) {
      forall k: nat | k < pages ensures !Occupied(a, tables, root, vaddr + PAGE_SIZE * k, 0) {
        if k >= n { assert mid + PAGE_SIZE * (k - n) == vaddr + PAGE_SIZE * k; }
      }
    }
  }

  lemma PageOfBlock(a: Arch, tables: Tables, root: nat, places: map<nat, Place>, vaddr: nat, depth: nat, n: nat, k: nat)
    requires SoundTables(a, tables, root, places) && depth <= Top(a) && OnBlock(vaddr, depth)
    requires Size(depth) == PAGE_SIZE * n && k < n && Size(depth) <= Span(a)
    ensures !Occupied(a, tables, root, vaddr, depth) ==> !Occupied(a, tables, root, vaddr + PAGE_SIZE * k, 0)
    ensures Occupied(a, tables, root, vaddr, depth) && !TableAt(a, tables, root, vaddr, depth) ==> Occupied(a, tables, root, vaddr + PAGE_SIZE * k, 0)
  {
    hide Occupied;
    hide TableAt;
    hide SoundTables;
    hide Size;
    hide OnBlock;
    hide Offset;
    OffsetOfDone(a, vaddr, PAGE_SIZE * k);
    BlockAndPages(a, tables, root, places, vaddr, depth, vaddr + PAGE_SIZE * k);
  }

  lemma PagesOfBlock(a: Arch, tables: Tables, root: nat, places: map<nat, Place>, vaddr: nat, depth: nat, n: nat)
    requires SoundTables(a, tables, root, places) && depth <= Top(a) && OnBlock(vaddr, depth)
    requires Size(depth) == PAGE_SIZE * n && 0 < n && Size(depth) <= Span(a)
    ensures !Occupied(a, tables, root, vaddr, depth) <==> PagesFree(a, tables, root, vaddr, n) && !TableAt(a, tables, root, vaddr, depth)
  {
    hide Occupied;
    hide TableAt;
    hide SoundTables;
    hide Size;
    hide OnBlock;
    forall k: nat | k < n
      ensures !Occupied(a, tables, root, vaddr, depth) ==> !Occupied(a, tables, root, vaddr + PAGE_SIZE * k, 0)
    {
      PageOfBlock(a, tables, root, places, vaddr, depth, n, k);
    }
    PageOfBlock(a, tables, root, places, vaddr, depth, n, 0);
    TableIsOccupied(a, tables, root, vaddr, depth);
  }

  lemma TableIsOccupied(a: Arch, tables: Tables, root: nat, vaddr: nat, depth: nat)
    requires depth <= Top(a)
    ensures TableAt(a, tables, root, vaddr, depth) ==> Occupied(a, tables, root, vaddr, depth)
  {
  }

  predicate PagesAligned(vaddr: nat, paddr: nat, size: nat) {
    vaddr % PAGE_SIZE == 0 && paddr % PAGE_SIZE == 0 && size % PAGE_SIZE == 0
  }

  /** Unmapping what was just mapped restores every translation. */
  lemma UnmapUndoesMap(a: Arch, root: nat, t0: Tables, t1: Tables, t2: Tables, vaddr: nat, paddr: nat, access: Access)
    requires MapsRange(a, root, t0, t1, vaddr, paddr, access, PAGE_SIZE) && Unmapped(a, root, t0, vaddr, PAGE_SIZE)
    requires Unmapped(a, root, t2, vaddr, PAGE_SIZE)
    requires forall v: nat :: Offset(a, vaddr, v) >= PAGE_SIZE ==> Translate(a, t2, root, v) == Translate(a, t1, root, v)
    ensures SameTranslation(a, root, t0, t2)
  {
    forall v: nat ensures Translate(a, t2, root, v) == Translate(a, t0, root, v) {
      assert Offset(a, vaddr, v) < PAGE_SIZE || Translate(a, t1, root, v) == Translate(a, t0, root, v);
    }
  }

  lemma SuitsFacts(a: Arch, vaddr: nat, paddr: nat, remaining: nat, depth: nat)
    requires depth <= Top(a) && Suits(a, vaddr, paddr, remaining, depth)
    ensures 0 < Size(depth) <= remaining && Size(depth) % PAGE_SIZE == 0 && Size(depth) <= Span(a)
  {
    assert Size(1) == 0x20_0000 && Size(2) == 0x4000_0000;
    var m := SpanFactor(a, depth);
    MulMonotone(Size(depth), 1, m);
  }

  lemma SuitsBlock(a: Arch, vaddr: nat, paddr: nat, remaining: nat, depth: nat)
    requires depth <= Top(a) && Suits(a, vaddr, paddr, remaining, depth) && OnPage(vaddr) && OnPage(paddr)
    ensures BlockSize(a, depth) > 0 && OnBlock(vaddr, depth) && OnBlock(paddr, depth)
    ensures 0 < Size(depth) <= remaining && Size(depth) <= Span(a) && OnPage(vaddr + Size(depth)) && OnPage(paddr + Size(depth))
  {
    hide Size;
    hide OnPage;
    SuitsFacts(a, vaddr, paddr, remaining, depth);
    PageSum(vaddr, Size(depth));
    PageSum(paddr, Size(depth));
  }

  lemma PageSum(x: nat, s: nat)
    requires OnPage(x) && s % PAGE_SIZE == 0
    ensures OnPage(x + s)
  {
  }

  lemma PageLeft(va: nat, end: nat)
    requires OnPage(va) && OnPage(end) && va < end
    ensures end - va >= PAGE_SIZE
  {
  }

  lemma PlanStep(a: Arch, tables: Tables, root: nat, vaddr: nat, paddr: nat, size: nat)
    requires OnPage(vaddr) && OnPage(paddr) && size >= PAGE_SIZE
    ensures var d := Choice(a, vaddr, paddr, size);
            0 < Size(d) <= size &&
            (PlanFree(a, tables, root, vaddr, paddr, size) <==>
             !Occupied(a, tables, root, vaddr, d) && PlanFree(a, tables, root, vaddr + Size(d), paddr + Size(d), size - Size(d)))
  {
    hide Occupied;
    hide Suits;
    ChoiceFacts(a, vaddr, paddr, size);
  }

  lemma PlanDone(a: Arch, tables: Tables, root: nat, vaddr: nat, paddr: nat)
    ensures PlanFree(a, tables, root, vaddr, paddr, 0)
  {
  }

  lemma PageInSpan(a: Arch)
    ensures PAGE_SIZE <= Span(a)
  {
    var m := SpanFactor(a, 0);
  }

  lemma NothingMapped(a: Arch, root: nat, tables: Tables, vaddr: nat, paddr: nat, access: Access)
    ensures MapsRange(a, root, tables, tables, vaddr, paddr, access, 0) && Unmapped(a, root, tables, vaddr, 0)
  {
  }

  lemma MapsThenSame(a: Arch, root: nat, t0: Tables, t1: Tables, t2: Tables, vaddr: nat, paddr: nat, access: Access, size: nat)
    requires MapsRange(a, root, t0, t1, vaddr, paddr, access, size) && SameTranslation(a, root, t1, t2)
    ensures MapsRange(a, root, t0, t2, vaddr, paddr, access, size)
  {
  }

  /** What the kernel's walk to the leaf level says about the translation of an address. */
  lemma PageLookup(a: Arch, root: nat, tables: Tables, places: map<nat, Place>, vaddr: nat)
    requires SoundTables(a, tables, root, places)
    ensures var low := vaddr % Span(a);
            match Reach(a, tables, root, Top(a), low, 0)
            case Missing => Translate(a, tables, root, vaddr) == None
            case Blocked => Translate(a, tables, root, vaddr).Some?
            case At(t) =>
              && HasTable(tables, t)
              && var w := tables[t][Index(vaddr, 0)];
                 Translate(a, tables, root, vaddr) == if IsValid(w) then Some(Hit(EntryPhys(a, w) + vaddr % PAGE_SIZE, AccessOf(a, w))) else None
  {
    var low := vaddr % Span(a);
    LowRegion(a, low);
    IndexLow(a, vaddr, 0);
    MissingUnmapped(a, tables, places, root, Top(a), low, 0);
    if Reach(a, tables, root, Top(a), low, 0).At? {
      var t := Reach(a, tables, root, Top(a), low, 0).table;
      ReachedTable(a, tables, places, root, Top(a), low, 0);
      var w := tables[t][Index(low, 0)];
      InvalidFaults(a, w, 0);
      if IsValid(w) { LeafEntry(a, root, tables, places, low, t); }
      LowOffset(a, vaddr);
    }
  }

  lemma LowOffset(a: Arch, v: nat)
    ensures (v % Span(a)) % PAGE_SIZE == v % PAGE_SIZE
  {
    var m := SpanFactor(a, 0);
    var low := v % Span(a);
    assert v == (PAGE_SIZE * m) * (v / Span(a)) + low;
    assert v == PAGE_SIZE * (m * (v / Span(a)) + low / PAGE_SIZE) + low % PAGE_SIZE;
    DivModUnique(v, PAGE_SIZE, m * (v / Span(a)) + low / PAGE_SIZE, low % PAGE_SIZE);
  }

  lemma TableSize(a: Arch, tables: Tables, places: map<nat, Place>, t: nat)
    requires WellPlaced(a, tables, places) && t in tables
    ensures HasTable(tables, t)
  {
  }

  lemma SameLow(a: Arch, root: nat, before: Tables, after: Tables)
    requires forall v :: 0 <= v < Span(a) ==> Walk(a, after, root, Top(a), v) == Walk(a, before, root, Top(a), v)
    ensures SameTranslation(a, root, before, after)
  {
  }
}
