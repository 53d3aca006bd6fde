/** How a slab is laid out: header, padding to the alignment, objects, then one index per object.

    The number of objects and the size of the slab are computed by two separate loops;
    the first allows for the padding, the second does not. They agree all the same.
 */
module SlabLayout {
  import opened Bits

  const PAGE: nat := 4096
  const MAX_SLAB: nat := 262144
  const SIZES: set<nat> := {4096, 8192, 16384, 32768, 65536, 131072, 262144}
  /** Size of the slab header. */
  const HEADER: nat := 64

  predicate Alignment(a: nat) {
    a in {8, 16, 32, 64, 128, 256, 512, 1024, 2048, 4096}
  }

  predicate Multiple(x: nat, a: nat) {
    a > 0 && x % a == 0
  }

  /** Bytes from the start of the slab to its first object. */
  function Head(align: nat): nat
    requires align > 0
  {
    AlignUp(HEADER, align)
  }

  /** How many objects, each with its index, a slab of the size holds. */
  function Capacity(size: nat, objectSize: nat, align: nat): int
    requires align > 0
  {
    (size - Head(align)) / (objectSize + 4)
  }

  /** The slab size for which the object count is settled: the first to hold eight objects, or the largest. */
  function SettledSize(size: nat, objectSize: nat, align: nat): nat
    requires align > 0
    decreases MAX_SLAB - size
  {
    if size >= MAX_SLAB || size == 0 then MAX_SLAB
    else if Capacity(size, objectSize, align) >= 8 then size
    else SettledSize(2 * size, objectSize, align)
  }

  function ObjectsPerSlab(objectSize: nat, align: nat): int
    requires align > 0
  {
    Capacity(SettledSize(PAGE, objectSize, align), objectSize, align)
  }

  /** The 64-byte header, padded to the alignment, and `n` objects with a four-byte index each fit in the slab. */
  predicate Fits(n: int, size: nat, objectSize: nat, align: nat)
    requires align > 0
  {
    AlignUp(64, align) + n * (objectSize + 4) <= size
  }

  /** As many objects as fit in the first of the sizes 4 KB to 256 KB that holds eight, or in 256 KB if none does. */
  ghost predicate FirstForEight(objects: int, objectSize: nat, align: nat)
    requires align > 0
  {
    exists s: nat ::
      && s in SIZES && Fits(objects, s, objectSize, align) && !Fits(objects + 1, s, objectSize, align)
      && (objects >= 8 || s == 262144)
      && forall z :: z in SIZES && z < s ==> !Fits(8, z, objectSize, align)
  }

  lemma CapacityFits(n: int, size: nat, objectSize: nat, align: nat)
    requires align > 0
    ensures Fits(n, size, objectSize, align) <==> n <= Capacity(size, objectSize, align)
  {
    hide AlignUp;
    var d, x := objectSize + 4, size - AlignUp(64, align);
    var q := x / d;
    assert d * q <= x < d * q + d;
    if n <= q {
      assert d * n <= d * q;
    } else {
      assert d * n >= d * (q + 1);
    }
  }

  lemma FirstFound(size: nat, objectSize: nat, align: nat)
    requires align > 0 && size in SIZES && forall z :: z in SIZES && z < size ==> Capacity(z, objectSize, align) < 8
    requires Capacity(size, objectSize, align) >= 8 || size == MAX_SLAB
    ensures FirstForEight(Capacity(size, objectSize, align), objectSize, align)
  {
    hide Capacity;
    hide Fits;
    var n := Capacity(size, objectSize, align);
    CapacityFits(n, size, objectSize, align);
    CapacityFits(n + 1, size, objectSize, align);
    forall z | z in SIZES && z < size ensures !Fits(8, z, objectSize, align) { CapacityFits(8, z, objectSize, align); }
  }

  method CalculateParameters(objectSize: nat, align: nat) returns (objects: int)
    requires align > 0
    ensures objects == ObjectsPerSlab(objectSize, align) && FirstForEight(objects, objectSize, align)
  {
    hide Capacity;
    hide FirstForEight;
    var size := PAGE;
    while size < MAX_SLAB
      invariant size in SIZES && forall z :: z in SIZES && z < size ==> Capacity(z, objectSize, align) < 8
      invariant SettledSize(PAGE, objectSize, align) == SettledSize(size, objectSize, align)
    {
      objects := Capacity(size, objectSize, align);
      if objects >= 8 {
        FirstFound(size, objectSize, align);
        return;
      }
      size := size * 2;
    }
    objects := Capacity(MAX_SLAB, objectSize, align);
    FirstFound(MAX_SLAB, objectSize, align);
  }

  /** The smallest power-of-two number of pages that holds the bytes, up to the largest slab. */
  function Doubled(size: nat, needed: nat): nat
    decreases MAX_SLAB - size
  {
    if 0 < size < needed && size < MAX_SLAB then Doubled(2 * size, needed) else size
  }

  function SlabBytes(objects: nat, objectSize: nat): nat {
    Doubled(PAGE, HEADER + objects * (objectSize + 4))
  }

  /** The smallest of the sizes that holds the bytes, or 256 KB. */
  predicate SmallestFor(size: nat, needed: int) {
    size in SIZES && (size >= needed || size == 262144) && forall z :: z in SIZES && z < size ==> z < needed
  }

  method SlabSize(objects: nat, objectSize: nat) returns (size: nat)
    ensures size == SlabBytes(objects, objectSize) && SmallestFor(size, 64 + objects * (objectSize + 4))
  {
    size := PAGE;
    var needed := HEADER + objects * objectSize + objects * 4;
    assert needed == HEADER + objects * (objectSize + 4);
    while size < needed && size < MAX_SLAB
      invariant size in SIZES && Doubled(PAGE, needed) == Doubled(size, needed)
      invariant forall z :: z in SIZES && z < size ==> z < needed
      decreases MAX_SLAB - size
    {
      size := size * 2;
    }
  }

  // -------------------------------------------------------------- the two computations agree

  lemma HeadValue(align: nat)
    requires Alignment(align)
    ensures Head(align) == if align <= 64 then 64 else align
    ensures Multiple(Head(align), align) && HEADER <= Head(align) <= PAGE
  {
  }

  lemma Settled(objectSize: nat, align: nat)
    requires Alignment(align)
    ensures var s := SettledSize(PAGE, objectSize, align);
            && s in SIZES && Multiple(s, PAGE)
            && (s < MAX_SLAB ==> Capacity(s, objectSize, align) >= 8)
  {
    hide Capacity;
    assert SettledSize(131072, objectSize, align) in {131072, 262144};
    assert SettledSize(32768, objectSize, align) in {32768, 65536, 131072, 262144};
    assert SettledSize(8192, objectSize, align) in {8192, 16384, 32768, 65536, 131072, 262144};
  }

  /** A number of bytes above half the settled size doubles up to exactly that size. */
  lemma DoublesTo(size: nat, needed: nat)
    requires size in SIZES
    requires needed <= size && (size > PAGE ==> size / 2 < needed)
    ensures Doubled(PAGE, needed) == size
  {
    assert needed > 131072 ==> Doubled(131072, needed) == 262144;
    assert needed > 65536 ==> Doubled(65536, needed) == Doubled(131072, needed);
    assert needed > 32768 ==> Doubled(32768, needed) == Doubled(65536, needed);
    assert needed > 16384 ==> Doubled(16384, needed) == Doubled(32768, needed);
    assert needed > 8192 ==> Doubled(8192, needed) == Doubled(16384, needed);
  }

  lemma NextMultiple(a: nat, q: nat, r: nat)
    requires a * q + a > a * r
    ensures a * q >= a * r
  {
    assert a * (q + 1) == a * q + a;
    if q < r { MulMonotone(a, q + 1, r); }
  }

  /** How many bytes `n` objects and their indices take. */
  lemma ObjectBytes(space: nat, o: nat, n: nat)
    requires o >= 5 && o * n <= space < o * n + o
    ensures 4 * n <= space
    ensures n * o <= space < n * o + o
    ensures n == 0 ==> n * o == 0
    ensures n == 1 ==> n * o == o
    ensures n >= 2 ==> n * o >= 2 * o
    ensures n >= 8 ==> n * o >= 8 * o
  {
    assert n * o == o * n;
    MulMonotone(n, 4, o);
    if n >= 2 { MulMonotone(o, 2, n); }
    if n >= 8 { MulMonotone(o, 8, n); }
  }

  /** The objects and their indices take more than half of the settled slab. */
  lemma MoreThanHalf(s: nat, h: nat, objectSize: nat, align: nat, n: nat, m: nat)
    requires Alignment(align) && h == (if align <= 64 then 64 else align)
    requires align <= objectSize <= 131072
    requires 64 < align && objectSize + align > 131072 ==> objectSize == 131072
    requires s in {8192, 16384, 32768, 65536, 131072, 262144} && (s < MAX_SLAB ==> n >= 8)
    requires m <= s - h < m + (objectSize + 4)
    requires n == 0 ==> m == 0
    requires n == 1 ==> m == objectSize + 4
    requires n >= 2 ==> m >= 2 * (objectSize + 4)
    requires n >= 8 ==> m >= 8 * (objectSize + 4)
    ensures n >= 1 && s / 2 < HEADER + m
  {
  }

  lemma Division(space: nat, o: nat)
    requires o > 0
    ensures space / o >= 0 && o * (space / o) <= space < o * (space / o) + o
  {
  }

  lemma CapacityBytes(s: nat, objectSize: nat, align: nat)
    requires Alignment(align) && s >= PAGE && objectSize >= 1
    ensures var n, o, space := Capacity(s, objectSize, align), objectSize + 4, s - Head(align);
            && n >= 0 && 4 * n <= space && n * o <= space < n * o + o
            && (n == 0 ==> n * o == 0) && (n == 1 ==> n * o == o)
            && (n >= 2 ==> n * o >= 2 * o) && (n >= 8 ==> n * o >= 8 * o)
  {
    hide Head;
    HeadValue(align);
    Division(s - Head(align), objectSize + 4);
    ObjectBytes(s - Head(align), objectSize + 4, Capacity(s, objectSize, align));
  }

  lemma SettledFits(s: nat, objectSize: nat, align: nat)
    requires Alignment(align)
    requires align <= objectSize <= 131072 && (objectSize + align > 131072 ==> objectSize == 131072)
    requires s in SIZES
    requires s < MAX_SLAB ==> Capacity(s, objectSize, align) >= 8
    ensures var n := Capacity(s, objectSize, align);
            1 <= n <= 65536 && SlabBytes(n, objectSize) == s && Head(align) + n * objectSize + n * 4 <= s
  {
    hide Doubled;
    hide Head;
    hide Capacity;
    HeadValue(align);
    var n := Capacity(s, objectSize, align);
    CapacityBytes(s, objectSize, align);
    Distribute(n, objectSize);
    FitsLinear(s, Head(align), objectSize, align, n, n * (objectSize + 4));
  }

  lemma Distribute(n: nat, objectSize: nat)
    ensures n * (objectSize + 4) == n * objectSize + n * 4
  {
  }

  lemma FitsLinear(s: nat, h: nat, objectSize: nat, align: nat, n: nat, m: nat)
    requires Alignment(align) && h == (if align <= 64 then 64 else align)
    requires align <= objectSize <= 131072 && (objectSize + align > 131072 ==> objectSize == 131072)
    requires s in SIZES && (s < MAX_SLAB ==> n >= 8)
    requires m <= s - h < m + (objectSize + 4) && 4 * n <= s - h
    requires n == 0 ==> m == 0
    requires n == 1 ==> m == objectSize + 4
    requires n >= 2 ==> m >= 2 * (objectSize + 4)
    requires n >= 8 ==> m >= 8 * (objectSize + 4)
    ensures 1 <= n <= 65536 && h + m <= s && Doubled(PAGE, HEADER + m) == s
  {
    hide Doubled;
    if s > PAGE { MoreThanHalf(s, h, objectSize, align, n, m); }
    DoublesTo(s, HEADER + m);
  }

  lemma CountFits(objectSize: nat, align: nat)
    requires Alignment(align)
    requires align <= objectSize <= 131072 && (objectSize + align > 131072 ==> objectSize == 131072)
    ensures var n := ObjectsPerSlab(objectSize, align);
            && 1 <= n <= 65536
            && SlabBytes(n, objectSize) == SettledSize(PAGE, objectSize, align)
            && Head(align) + n * objectSize + n * 4 <= SlabBytes(n, objectSize)
            && Multiple(SlabBytes(n, objectSize), PAGE)
  {
    hide SettledSize;
    hide SlabBytes;
    hide Multiple;
    hide Head;
    hide Capacity;
    Settled(objectSize, align);
    SettledFits(SettledSize(PAGE, objectSize, align), objectSize, align);
  }

  lemma AlignedSize(size: nat, align: nat)
    requires Alignment(align) && 0 < size <= 131072
    ensures align <= AlignUp(size, align) <= 131072 && Multiple(AlignUp(size, align), align) && size <= AlignUp(size, align)
    ensures AlignUp(size, align) + align > 131072 ==> AlignUp(size, align) == 131072
  {
    var q, r := (size + align - 1) / align, (size + align - 1) % align;
    var top := 131072 / align;
    var x := AlignUp(size, align);
    assert x == align * q && size + align - 1 == align * q + r && r < align;
    DivModUnique(x, align, q, 0);
    assert 131072 == align * top && align == align * 1;
    NextMultiple(align, q, 1);
    NextMultiple(align, top, q);
    if x + align > 131072 { NextMultiple(align, q, top); }
  }

  /** For every object size and alignment a cache may have: a slab holds at least one object, and the
      header, the padded object area and the index array fit in the size recomputed at creation,
      which is the size the object count was settled for. */
  lemma LayoutFits(size: nat, align: nat)
    requires Alignment(align) && 0 < size <= MAX_SLAB / 2
    ensures var objectSize := AlignUp(size, align);
            var n := ObjectsPerSlab(objectSize, align);
            && 1 <= n <= 65536
            && Multiple(objectSize, align) && size <= objectSize
            && HEADER <= Head(align) <= PAGE && Multiple(Head(align), align)
            && SlabBytes(n, objectSize) == SettledSize(PAGE, objectSize, align)
            && Head(align) + n * objectSize + n * 4 <= SlabBytes(n, objectSize)
            && Multiple(SlabBytes(n, objectSize), PAGE)
  {
    hide AlignUp;
    hide Head;
    hide Multiple;
    hide ObjectsPerSlab;
    hide SlabBytes;
    AlignedSize(size, align);
    HeadValue(align);
    CountFits(AlignUp(size, align), align);
  }
}
