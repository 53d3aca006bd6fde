/** Multi-level page tables as the MMU and the kernel's walker read them.

    Two formats: Sv39 (section 4.4 of the RISC-V Privileged Architecture v1.12) and VMSAv8-64 with a
    4 KB granule and four levels (Arm Architecture Reference Manual, DDI 0487). A level is identified by its
    depth, the distance from the leaf level: Sv39 level n is depth n, arm64 level n is depth 3 - n.
 */
module PageTable {
  import opened Bits

  datatype Arch = Sv39 | Arm64

  const ENTRIES := 512

  function Div(a: nat, b: nat): nat
    requires b > 0
  {
    a / b
  }

  /** Bytes mapped by one entry at the given depth. */
  function Size(depth: nat): (r: nat)
    ensures r > 0
  {
    if depth == 0 then 4096 else 512 * Size(depth - 1)
  }

  function Top(a: Arch): nat { if a.Sv39? then 2 else 3 }

  /** Bytes of virtual address space that the table covers: 2^39 or 2^48. */
  function Span(a: Arch): nat { Size(Top(a) + 1) }

  /** Number of page frames that the address field of an entry can name: 44 and 36 bits. */
  function Frames(a: Arch): nat { if a.Sv39? then 0x1000_0000_0000 else 0x10_0000_0000 }

  function PhysLimit(a: Arch): nat { 4096 * Frames(a) }

  /** Size of a block mapping at the depth; 0 where the format has none (arm64 level 0). */
  function BlockSize(a: Arch, depth: nat): nat {
    if depth > 2 then 0 else Size(depth)
  }

  function Index(v: nat, depth: nat): (i: nat)
    ensures i < ENTRIES
  {
    Div(v, Size(depth)) % ENTRIES
  }

  // ---------------------------------------------------------------- entries

  datatype Attrs = Attrs(read: bool, write: bool, execute: bool, user: bool, device: bool, nocache: bool)

  function Flag(present: bool, mask: nat): nat { if present then mask else 0 }

  /** V, R, W with D, X, U and A; every bit is set at most once, so `|` is a sum. */
  function RiscvFlags(attrs: Attrs): nat {
    1 + Flag(attrs.read, 2) + Flag(attrs.write, 4 + 128) + Flag(attrs.execute, 8) + Flag(attrs.user, 16) + 64
  }

  /** The arm64 access-permission field. */
  function ArmAp(attrs: Attrs): nat {
    if attrs.user then if attrs.write then 1 else 3
    else if attrs.write then 0 else if attrs.read then 2 else 0
  }

  function ArmAttrIndex(attrs: Attrs): nat {
    if attrs.device then 1 else if attrs.nocache then 2 else 0
  }

  /** The arm64 attribute bits below the address field, without the two type bits. */
  function ArmLow(attrs: Attrs): nat {
    4 * ArmAttrIndex(attrs) + 64 * ArmAp(attrs) + 256 * 3 + 1024
  }

  function ArmHigh(attrs: Attrs): nat {
    if attrs.execute then 0 else 0x60_0000_0000_0000
  }

  // ---------------------------------------------------------------- access

  datatype Rights = Rights(read: bool, write: bool, execute: bool)

  /** Normal write-back memory, device memory without reordering, or whatever the physical region is (Sv39). */
  datatype Memory = Cached | Strict | ByRegion

  /** What the MMU grants at a mapped address, to the kernel and to user code. */
  datatype Access = Access(kernel: Rights, user: Rights, memory: Memory)

  const NONE := Rights(false, false, false)

  /** The bit of weight `m` is set. */
  predicate Set(w: nat, m: nat)
    requires m > 0
  {
    (w / m) % 2 == 1
  }

  /** Read off a leaf entry. Sv39 is taken with sstatus.SUM clear, as the boot code leaves it: the kernel has no
      access to user pages; a clear A bit forbids all access, a clear D bit writing. On arm64 a page that user
      code can write is never executable for the kernel, and MAIR_EL1 makes index 0 normal memory and every other
      index device memory. */
  function AccessOf(a: Arch, w: nat): Access {
    match a
    case Sv39 =>
      var r := if Set(w, 64) then Rights(Set(w, 2), Set(w, 4) && Set(w, 128), Set(w, 8)) else NONE;
      if Set(w, 16) then Access(NONE, r, ByRegion) else Access(r, NONE, ByRegion)
    case Arm64 =>
      var all, fixed := Set(w, 64), Set(w, 128);
      if Set(w, 1024) then
        Access(Rights(true, !fixed, !Set(w, 0x20_0000_0000_0000) && !(all && !fixed)),
               Rights(all, all && !fixed, !Set(w, 0x40_0000_0000_0000)), if (w / 4) % 8 == 0 then Cached else Strict)
      else Access(NONE, NONE, if (w / 4) % 8 == 0 then Cached else Strict)
  }

  /** What the attributes of a mapping amount to. On arm64 a mapping for the kernel is always readable and, unless
      it is read-only, writable; execution is given or denied to kernel and user code alike; and uncached memory
      comes out as device memory. */
  function Granted(a: Arch, attrs: Attrs): Access {
    match a
    case Sv39 =>
      var r := Rights(attrs.read, attrs.write, attrs.execute);
      if attrs.user then Access(NONE, r, ByRegion) else Access(r, NONE, ByRegion)
    case Arm64 =>
      Access(Rights(true, attrs.write || !(attrs.read || attrs.user), attrs.execute && !(attrs.user && attrs.write)),
             Rights(attrs.user, attrs.user && attrs.write, attrs.execute),
             if attrs.device || attrs.nocache then Strict else Cached)
  }

  /** The physical page number as stored: truncated to the width of the field. */
  function FrameField(a: Arch, phys: nat): nat {
    phys / 4096 % Frames(a)
  }

  function MakeTable(a: Arch, phys: nat): nat {
    match a
    case Sv39 => 1024 * FrameField(a, phys) + 1
    case Arm64 => 4096 * FrameField(a, phys) + 3
  }

  function MakeBlock(a: Arch, phys: nat, attrs: Attrs, depth: nat): nat {
    match a
    case Sv39 => 1024 * FrameField(a, phys) + RiscvFlags(attrs)
    case Arm64 => ArmHigh(attrs) + 4096 * FrameField(a, phys) + ArmLow(attrs) + if depth == 0 then 3 else 1
  }

  /** The kernel's tests on an entry. */
  predicate IsValid(w: nat) { w % 2 == 1 }

  predicate IsBlock(a: Arch, w: nat, depth: nat) {
    match a
    case Sv39 => IsValid(w) && (Set(w, 2) || Set(w, 4) || Set(w, 8))
    case Arm64 => (depth == 1 || depth == 2) && w % 4 == 1
  }

  function EntryPhys(a: Arch, w: nat): nat {
    match a
    case Sv39 => 4096 * ((w / 1024) % Frames(a))
    case Arm64 => 4096 * ((w / 4096) % Frames(a))
  }

  /** What the MMU makes of an entry. */
  datatype Entry = Fault | Table(phys: nat) | Leaf(phys: nat, access: Access)

  function Decode(a: Arch, w: nat, depth: nat): Entry {
    match a
    case Sv39 =>
      var r, wr, x := Set(w, 2), Set(w, 4), Set(w, 8);
      if !IsValid(w) || (wr && !r) then Fault
      else if r || x then
        if EntryPhys(a, w) % Size(depth) != 0 then Fault else Leaf(EntryPhys(a, w), AccessOf(a, w))
      else if depth == 0 then Fault else Table(EntryPhys(a, w))
    case Arm64 =>
      if !IsValid(w) then Fault
      else if w % 4 == 3 then if depth == 0 then Leaf(EntryPhys(a, w), AccessOf(a, w)) else Table(EntryPhys(a, w))
      else if depth == 1 || depth == 2 then Leaf(EntryPhys(a, w) - EntryPhys(a, w) % Size(depth), AccessOf(a, w))
      else Fault
  }

  /** The attributes that make a valid Sv39 leaf: without R and X the entry reads as a table pointer, and W
      without R is a reserved encoding. The arm64 format has no such restriction. */
  predicate Mappable(a: Arch, attrs: Attrs) {
    a.Sv39? ==> attrs.read || (attrs.execute && !attrs.write)
  }

  lemma FrameFieldFacts(a: Arch, phys: nat)
    requires phys % 4096 == 0
    ensures FrameField(a, phys) < Frames(a) && 4096 * FrameField(a, phys) == phys % PhysLimit(a)
  {
    var n, f := Frames(a), phys / 4096;
    assert phys == 4096 * f && f == n * (f / n) + f % n;
    assert phys == (4096 * n) * (f / n) + 4096 * (f % n);
    DivModUnique(phys, 4096 * n, f / n, 4096 * (f % n));
  }

  /** A bit below a multiple of the next weight is unaffected by the multiple. */
  lemma LowBit(w: nat, q: nat, low: nat, m: nat)
    requires m > 0 && w == (2 * m) * q + low
    ensures Set(w, m) <==> Set(low, m)
  {
    assert (2 * m) * q == m * (2 * q);
    DivModUnique(w, m, 2 * q + low / m, low % m);
  }

  /** Reading back the fields of an Sv39 entry. */
  lemma RiscvFields(frame: nat, flags: nat, w: nat)
    requires flags < 1024 && frame < Frames(Sv39) && w == 1024 * frame + flags
    ensures w % 2 == flags % 2 && forall m :: m in {2, 4, 8, 16, 64, 128} ==> (Set(w, m) <==> Set(flags, m))
    ensures EntryPhys(Sv39, w) == 4096 * frame
  {
    hide Set;
    DivModUnique(w, 2, 512 * frame + flags / 2, flags % 2);
    LowBit(w, 256 * frame, flags, 2);
    LowBit(w, 128 * frame, flags, 4);
    LowBit(w, 64 * frame, flags, 8);
    LowBit(w, 32 * frame, flags, 16);
    LowBit(w, 8 * frame, flags, 64);
    LowBit(w, 4 * frame, flags, 128);
    DivModUnique(w, 1024, frame, flags);
  }

  lemma RiscvFlagBits(attrs: Attrs)
    ensures var f := RiscvFlags(attrs);
            && f < 256 && f % 2 == 1 && Set(f, 64)
            && (Set(f, 2) <==> attrs.read) && (Set(f, 4) <==> attrs.write) && (Set(f, 8) <==> attrs.execute)
            && (Set(f, 16) <==> attrs.user) && (Set(f, 128) <==> attrs.write)
  {
  }

  /** Reading back the fields of an arm64 entry. */
  lemma ArmFields(high: nat, frame: nat, low: nat, w: nat)
    requires low < 4096 && frame < Frames(Arm64) && high % 0x1_0000_0000_0000 == 0 && w == high + 4096 * frame + low
    ensures w % 2 == low % 2 && w % 4 == low % 4 && EntryPhys(Arm64, w) == 4096 * frame
    ensures (w / 4) % 8 == (low / 4) % 8 && forall m :: m in {64, 128, 1024} ==> (Set(w, m) <==> Set(low, m))
  {
    hide Set;
    var h := high / 0x1_0000_0000_0000;
    assert high == 0x1_0000_0000_0000 * h;
    DivModUnique(w, 2, 0x8000_0000_0000 * h + 2048 * frame + low / 2, low % 2);
    DivModUnique(w, 4, 0x4000_0000_0000 * h + 1024 * frame + low / 4, low % 4);
    DivModUnique(w / 4, 8, 0x800_0000_0000 * h + 128 * frame + (low / 4) / 8, (low / 4) % 8);
    LowBit(w, 0x200_0000_0000 * h + 32 * frame, low, 64);
    LowBit(w, 0x100_0000_0000 * h + 16 * frame, low, 128);
    LowBit(w, 0x20_0000_0000 * h + 2 * frame, low, 1024);
    DivModUnique(w, 4096, 0x10_0000_0000 * h + frame, low);
    DivModUnique(w / 4096, 0x10_0000_0000, h, frame);
  }

  lemma ArmLowBits(attrs: Attrs, kind: nat)
    requires kind == 1 || kind == 3
    ensures var f := ArmLow(attrs) + kind;
            && f < 4096 && f % 4 == kind && f % 2 == 1 && Set(f, 1024)
            && (Set(f, 64) <==> attrs.user) && (Set(f, 128) <==> !attrs.write && (attrs.read || attrs.user))
            && ((f / 4) % 8 == 0 <==> !attrs.device && !attrs.nocache)
  {
  }

  lemma ArmHighBits(attrs: Attrs, rest: nat)
    requires rest < 0x1_0000_0000_0000
    ensures ArmHigh(attrs) % 0x1_0000_0000_0000 == 0
    ensures var w := ArmHigh(attrs) + rest;
            (Set(w, 0x20_0000_0000_0000) <==> !attrs.execute) && (Set(w, 0x40_0000_0000_0000) <==> !attrs.execute)
  {
    var w := ArmHigh(attrs) + rest;
    if attrs.execute {
      DivModUnique(w, 0x20_0000_0000_0000, 0, w);
      DivModUnique(w, 0x40_0000_0000_0000, 0, w);
    } else {
      DivModUnique(w, 0x20_0000_0000_0000, 3, rest);
      DivModUnique(w, 0x40_0000_0000_0000, 1, 0x20_0000_0000_0000 + rest);
    }
  }

  /** A block or page entry decodes to the address it was made from, truncated to the field, exactly when
      the attributes make a leaf; the kernel's own test sees a block wherever there can be one. */
  lemma MadeBlock(a: Arch, phys: nat, attrs: Attrs, depth: nat)
    requires depth <= Top(a) && BlockSize(a, depth) > 0 && phys % Size(depth) == 0
    ensures Decode(a, MakeBlock(a, phys, attrs, depth), depth) == Leaf(phys % PhysLimit(a), Granted(a, attrs)) <==> Mappable(a, attrs)
    ensures IsValid(MakeBlock(a, phys, attrs, depth)) && EntryPhys(a, MakeBlock(a, phys, attrs, depth)) == phys % PhysLimit(a)
    ensures Mappable(a, attrs) && depth > 0 ==> IsBlock(a, MakeBlock(a, phys, attrs, depth), depth)
  {
    hide FrameField;
    hide EntryPhys;
    hide Size;
    hide Set;
    hide RiscvFlags;
    hide ArmLow;
    hide ArmHigh;
    AlignedDown(a, phys, depth);
    FrameFieldFacts(a, phys);
    var w := MakeBlock(a, phys, attrs, depth);
    if a.Sv39? {
      RiscvFlagBits(attrs);
      RiscvFields(FrameField(a, phys), RiscvFlags(attrs), w);
    } else {
      var kind := if depth == 0 then 3 else 1;
      ArmLowBits(attrs, kind);
      ArmHighBits(attrs, 4096 * FrameField(a, phys) + (ArmLow(attrs) + kind));
      ArmFields(ArmHigh(attrs), FrameField(a, phys), ArmLow(attrs) + kind, w);
    }
  }

  /** Truncation to the address field keeps the alignment of a block. */
  lemma AlignedDown(a: Arch, phys: nat, depth: nat)
    requires depth <= 2 && phys % Size(depth) == 0
    ensures phys % 4096 == 0 && (phys % PhysLimit(a)) % Size(depth) == 0
  {
    var s, k := Size(depth), if depth == 0 then 1 else if depth == 1 then 512 else 0x4_0000;
    assert s == 4096 * k;
    ModOfMultiple(phys, s, Frames(a) / k);
    assert s * (Frames(a) / k) == PhysLimit(a);
    DivModUnique(phys, 4096, k * (phys / s), 0);
  }

  lemma ModOfMultiple(x: nat, s: nat, m: nat)
    requires s > 0 && m > 0 && x % s == 0
    ensures s * m > 0 && (x % (s * m)) % s == 0
  {
    var q := x / s;
    assert x == s * q && q == m * (q / m) + q % m;
    assert x == (s * m) * (q / m) + s * (q % m);
    DivModUnique(x, s * m, q / m, s * (q % m));
    DivModUnique(s * (q % m), s, q % m, 0);
  }

  lemma FrameExact(a: Arch, phys: nat)
    requires phys % 4096 == 0 && phys < PhysLimit(a)
    ensures FrameField(a, phys) < Frames(a) && 4096 * FrameField(a, phys) == phys
  {
    hide FrameField;
    FrameFieldFacts(a, phys);
  }

  lemma MadeTable(a: Arch, phys: nat, depth: nat)
    requires 0 < depth <= Top(a) && phys % 4096 == 0 && phys < PhysLimit(a)
    ensures Decode(a, MakeTable(a, phys), depth) == Table(phys)
    ensures IsValid(MakeTable(a, phys)) && !IsBlock(a, MakeTable(a, phys), depth) && EntryPhys(a, MakeTable(a, phys)) == phys
  {
    hide FrameField;
    hide EntryPhys;
    hide Size;
    hide PhysLimit;
    FrameExact(a, phys);
    if a.Sv39? {
      RiscvFields(FrameField(a, phys), 1, MakeTable(a, phys));
    } else {
      ArmFields(0, FrameField(a, phys), 3, MakeTable(a, phys));
    }
  }
}
