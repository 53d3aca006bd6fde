/** Message-signalled interrupts: a device takes a run of consecutive hardware interrupts
    in its domain, maps each to a virq, and gives them all back.
 */
module Msi {
  import opened Bits
  import opened Options
  import opened IrqState
  import opened IrqMappings
  import opened IrqDomain
  import opened MsiState

  const MAX_VECTORS: nat := 32

  // -------------------------------------------------------------- ranges

  /** Scan a domain for the lowest run of free hardware interrupts. */
  method FindFreeRange(core: IrqCore, d: nat, count: nat) returns (ok: bool, base: nat)
    requires d < |core.domains| && count > 0
    ensures ok ==> LowestRun(core.domains[d], base, count)
    ensures !ok ==> forall b: nat :: !FreeRun(core.domains[d], b, count)
  {
    var m := core.domains[d];
    var limit := if m.kind.Tree? then MAX_HWIRQ else |m.linear|;
    var current, consecutive := 0, 0;
    base := 0;
    while current < limit
      invariant current <= limit == Limit(m) && consecutive < count && consecutive <= current
      invariant consecutive > 0 ==> base == current - consecutive
      invariant forall h: nat :: current - consecutive <= h < current ==> FreeAt(m, h)
      invariant forall b: nat :: b < current - consecutive ==> !FreeRun(m, b, count)
    {
      if (if m.kind.Tree? then current !in m.tree else m.linear[current] == 0) {
        if consecutive == 0 { base := current; }
        consecutive := consecutive + 1;
        if consecutive >= count { return true, base; }
      } else {
        forall b: nat | current - consecutive <= b <= current ensures !FreeRun(m, b, count) {
          assert !FreeAt(m, current);
        }
        consecutive := 0;
      }
      current := current + 1;
    }
    return false, 0;
  }

  /** Set a range of a tree domain aside; on failure the marks already made are taken back. */
  method ReserveRange(core: IrqCore, d: nat, base: nat, count: nat) returns (ok: bool)
    requires d < |core.domains| && core.domains[d].kind.Tree?
    requires forall h: nat :: base <= h < base + count ==> h !in core.domains[d].tree
    modifies core`domains, core`failures
    ensures core.failures == old(core.failures) + if ok then 0 else 1
    ensures core.domains == if ok then old(core.domains)[d := Reserve(old(core.domains[d]), base, count)] else old(core.domains)
  {
    ghost var m0 := core.domains[d];
    var m := core.domains[d];
    var i := 0;
    while i < count
      invariant 0 <= i <= count && m == Reserve(m0, base, i) && core.domains == old(core.domains)[d := m]
      invariant core.failures == old(core.failures)
    {
      var inserted := core.TryMemory();
      if !inserted {
        while i > 0
          invariant 0 <= i <= count && m == Reserve(m0, base, i) && core.domains == old(core.domains)[d := m]
          invariant core.failures == old(core.failures) + 1
        {
          i := i - 1;
          ReserveUndo(m0, base, i);
          m := m.(tree := m.tree - {base + i});
          core.domains := core.domains[d := m];
        }
        return false;
      }
      ReservedSlots(m0, base, i);
      m := m.(tree := m.tree[base + i := Reserved]);
      core.domains := core.domains[d := m];
      i := i + 1;
    }
    return true;
  }

  lemma ReserveUndo(m: Domain, base: nat, i: nat)
    requires m.kind.Tree? && base + i !in m.tree
    ensures var n := Reserve(m, base, i + 1); n.(tree := n.tree - {base + i}) == Reserve(m, base, i)
  {
    ReservedSlots(m, base, i);
    var n, k := Reserve(m, base, i + 1), Reserve(m, base, i);
    assert SameSlot(m, k, base + i);
    assert n.tree - {base + i} == k.tree;
  }

  /** Take a run of hardware interrupts; a hierarchy domain has none to give. */
  method AllocHwirqRange(core: IrqCore, d: nat, count: nat) returns (ok: bool, base: nat, ghost starved: bool)
    requires d < |core.domains| && count > 0
    modifies core`domains, core`failures
    ensures core.failures == old(core.failures) + if starved then 1 else 0
    ensures ok ==> !starved && !old(core.domains[d]).kind.Hierarchy? && LowestRun(old(core.domains[d]), base, count)
    ensures ok ==> core.domains == old(core.domains)[d := Reserve(old(core.domains[d]), base, count)]
    ensures !ok ==> core.domains == old(core.domains)
    ensures !ok && !starved ==> core.domains[d].kind.Hierarchy? || forall b: nat :: !FreeRun(core.domains[d], b, count)
  {
    starved := false;
    if core.domains[d].kind.Hierarchy? { return false, 0, false; }
    ok, base := FindFreeRange(core, d, count);
    if ok && core.domains[d].kind.Tree? {
      forall h: nat | base <= h < base + count ensures h !in core.domains[d].tree {
        assert FreeAt(core.domains[d], h);
      }
      ok := ReserveRange(core, d, base, count);
      starved := !ok;
    }
  }

  /** Take back the reservations of a range. */
  method FreeHwirqRange(core: IrqCore, d: nat, base: nat, count: nat)
    requires d < |core.domains|
    modifies core`domains
    ensures core.domains == old(core.domains)[d := Release(old(core.domains[d]), base, count)]
    ensures core.domains[d].kind.Tree? ==>
      forall h: nat :: h in core.domains[d].tree <==>
        h in old(core.domains[d]).tree && !(base <= h < base + count && old(core.domains[d]).tree[h] == Reserved)
  {
    ghost var m0 := core.domains[d];
    ReleasedSlots(m0, base, count);
    if !core.domains[d].kind.Tree? { return; }
    var i := 0;
    while i < count
      invariant 0 <= i <= count && core.domains == old(core.domains)[d := Release(m0, base, i)]
    {
      ReleaseKind(m0, base, i);
      var m := core.domains[d];
      if base + i in m.tree && m.tree[base + i] == Reserved {
        core.domains := core.domains[d := m.(tree := m.tree - {base + i})];
      }
      i := i + 1;
    }
  }

  // -------------------------------------------------------------- vectors

  predicate PowerOfTwo(n: nat) {
    n in {1, 2, 4, 8, 16, 32}
  }

  /** The largest power of two that is at most the argument. */
  method VectorCount(max: nat) returns (n: nat)
    requires 1 <= max <= MAX_VECTORS
    ensures PowerOfTwo(n) && n <= max < 2 * n
  {
    n := 1;
    while n <= max
      invariant n in {1, 2, 4, 8, 16, 32, 64} && n <= 2 * max
      decreases 2 * max - n
    {
      n := n * 2;
    }
    n := n / 2;
  }

  /** A range set aside changes no mapping. */
  lemma ReserveSound(s: State, d: nat, base: nat, count: nat)
    requires Inv(s) && d < |s.domains| && !s.domains[d].kind.Hierarchy? && FreeRun(s.domains[d], base, count)
    ensures var t := s.(domains := s.domains[d := Reserve(s.domains[d], base, count)]);
            Inv(t) && Plus(s, t, d, Vectors(base, seq(count, _ => INVALID)))
  {
    var m := s.domains[d];
    var t := s.(domains := s.domains[d := Reserve(m, base, count)]);
    PlusReserved(s, d, base, count);
    ReservedSlots(m, base, count);
    forall c: nat, h: nat | Mapped(t, c, h) != 0 ensures Intact(t, c, h) {
      MappedIntact(s, c, h, |s.domains|);
      SameMapsIntact(s, t, c, h);
    }
    forall h | h in t.domains[d].tree ensures t.domains[d].tree[h] != Bound(0) {
      if !(base <= h < base + count) { assert SameSlot(m, t.domains[d], h); }
    }
    assert DomainOk(t.domains[d], d);
  }

  /** An unmapped vector can be mapped exactly while a virq is free. */
  lemma RangeFeasible(s: State, t: State, d: nat, h: nat, es: seq<Vector>)
    requires Inv(t) && Plus(s, t, d, es) && FreeAt(s.domains[d], h) && Mapped(t, d, h) == 0
    ensures Feasible(t, d, h) <==> FirstClear(t.bitmap) < MAX_VIRQ
  {
  }

  /** In a device's list, the number of a new vector is on that vector alone. */
  lemma OnlyLast(s: State, t: State, d: nat, before: seq<Vector>, base: nat, irqs: seq<nat>, k: nat)
    requires Plus(s, t, d, Vectors(base, irqs)) && Placed(s, d, before) && k < |irqs|
    ensures var all := before + Vectors(base, irqs)[..k + 1];
            && all[|all| - 1] == Vector(base + k, irqs[k]) && all[..|all| - 1] == before + Vectors(base, irqs)[..k]
            && forall j :: 0 <= j < |all| - 1 ==> all[j].hwirq != base + k
  {
    var es := Vectors(base, irqs);
    var all := before + es[..k + 1];
    assert VectorOk(s, t, d, es[k]);
    forall j | 0 <= j < |all| - 1 ensures all[j].hwirq != base + k {
      if j < |before| { assert !FreeAt(s.domains[d], before[j].hwirq); }
    }
    assert es[..k + 1] == es[..k] + [es[k]];
  }

  lemma VectorsNext(base: nat, irqs: seq<nat>, i: nat, irq: nat)
    requires i < |irqs|
    ensures Vectors(base, irqs[i := irq])[..i + 1] == Vectors(base, irqs)[..i] + [Vector(base + i, irq)]
  {
  }

  /** The request is malformed, or the domain has no run for the number of vectors it asks for. */
  ghost predicate NoVectors(m: Domain, min: nat, max: nat) {
    min == 0 || min > max || max > MAX_VECTORS || m.kind.Hierarchy? ||
    forall n: nat :: PowerOfTwo(n) && n <= max < 2 * n ==> n < min || forall b: nat :: !FreeRun(m, b, n)
  }

  /** The virq of a vector names its mapping, and an invalid one names none. */
  lemma VectorDisposed(t: State, d: nat, e: Vector)
    requires Inv(t) && Held(t, d, e)
    ensures e.irq == INVALID ==> !Named(t, e.irq)
    ensures e.irq != INVALID ==> Named(t, e.irq) && t.descs[e.irq].value.domain == Some(d) && t.descs[e.irq].value.hwirq == e.hwirq
  {
  }

  /** Something failed between the two readings of the counters exactly if `starved` says so. */
  predicate Counters(f0: nat, r0: nat, f1: nat, r1: nat, starved: bool) {
    f0 <= f1 && r0 <= r1 && (starved <==> f1 > f0 || r1 > r0)
  }

  class MsiDevice {
    var list: seq<Vector>
    var numVectors: nat

    constructor ()
      ensures list == [] && numVectors == 0
    {
      list, numVectors := [], 0;
    }

    /** Take between `min` and `max` vectors. The device holds only vectors that are still mapped or set aside.
        Unless memory fails or a mapping is refused, exactly as many vectors get a virq as virqs were free:
        the first ones. The call succeeds all the same when they run out. */
    method AllocVectors(core: IrqCore, d: nat, min: nat, max: nat)
        returns (r: int, ghost base: nat, ghost irqs: seq<nat>, ghost starved: bool)
      requires Inv(core.Now()) && d < |core.domains| && Placed(core.Now(), d, list) && numVectors == |list|
      modifies this, core
      ensures Inv(core.Now()) && numVectors == |list|
      ensures r == -1 || r > 0
      ensures r == -1 ==> core.Now() == old(core.Now()) && list == old(list)
      ensures r > 0 ==> PowerOfTwo(r) && 0 < min <= r <= max < 2 * r && max <= MAX_VECTORS && |irqs| == r
      ensures r > 0 ==> LowestRun(old(core.domains[d]), base, r) && list == old(list) + Vectors(base, irqs)
      ensures r > 0 ==> Plus(old(core.Now()), core.Now(), d, Vectors(base, irqs))
      ensures r > 0 && !starved ==> forall i :: 0 <= i < r ==> (irqs[i] != INVALID <==> i < ClearBits(old(core.bitmap)))
      ensures r == -1 && !starved ==> NoVectors(core.domains[d], min, max)
      ensures starved <==> core.failures > old(core.failures) || core.refusals > old(core.refusals)
    {
      hide Inv;
      hide OnlyHere;
      hide VectorOk;
      irqs, base, starved := [], 0, false;
      if min == 0 || min > max || max > MAX_VECTORS { return -1, base, irqs, false; }
      var nvec := VectorCount(max);
      assert forall n: nat :: PowerOfTwo(n) && n <= max < 2 * n ==> n == nvec;
      if nvec < min { return -1, base, irqs, false; }
      ghost var s := core.Now();
      var ok, first, noMemory := AllocHwirqRange(core, d, nvec);
      if !ok {
        assert core.Now() == s;
        return -1, base, irqs, noMemory;
      }
      base := first;
      ReserveSound(s, d, first, nvec);
      assert core.Now() == s.(domains := s.domains[d := Reserve(s.domains[d], first, nvec)]);
      var bound;
      bound, irqs, starved := BindVectors(core, d, first, nvec, s);
      r := if bound then nvec else -1;
    }

    /** Map the vectors of a range set aside, one after the other. */
    method BindVectors(core: IrqCore, d: nat, base: nat, nvec: nat, ghost s: State)
        returns (ok: bool, ghost irqs: seq<nat>, ghost starved: bool)
      requires Inv(s) && Inv(core.Now()) && Plus(s, core.Now(), d, Vectors(base, seq(nvec, _ => INVALID)))
      requires Placed(s, d, list) && numVectors == |list|
      modifies this, core
      ensures Inv(core.Now()) && numVectors == |list| && |irqs| == nvec
      ensures !ok ==> starved && core.Now() == s && list == old(list)
      ensures ok ==> list == old(list) + Vectors(base, irqs) && Plus(s, core.Now(), d, Vectors(base, irqs))
      ensures ok && !starved ==> forall i :: 0 <= i < nvec ==> (irqs[i] != INVALID <==> i < ClearBits(old(core.bitmap)))
      ensures Counters(old(core.failures), old(core.refusals), core.failures, core.refusals, starved)
    {
      hide Inv;
      hide OnlyHere;
      hide VectorOk;
      irqs, starved := seq(nvec, _ => INVALID), false;
      ghost var free := ClearBits(core.bitmap);
      var i := 0;
      assert list + Vectors(base, irqs)[..0] == list;
      while i < nvec
        invariant 0 <= i <= nvec == |irqs| && numVectors == |list|
        invariant Inv(core.Now()) && Plus(s, core.Now(), d, Vectors(base, irqs))
        invariant list == old(list) + Vectors(base, irqs)[..i]
        invariant forall k :: i <= k < nvec ==> irqs[k] == INVALID
        invariant Counters(old(core.failures), old(core.refusals), core.failures, core.refusals, starved)
        invariant !starved ==> ClearBits(core.bitmap) == if i <= free then free - i else 0
        invariant !starved ==> forall k :: 0 <= k < i ==> (irqs[k] != INVALID <==> k < free)
      {
        var memory := core.TryMemory();
        if !memory {
          Cleanup(core, d, base, i, nvec, old(list), irqs, s);
          return false, irqs, true;
        }
        var irq;
        ghost var why;
        irq, why := MapVector(core, d, base, i, s, irqs);
        VectorsNext(base, irqs, i, irq);
        irqs := irqs[i := irq];
        starved := starved || why.NoMemory? || why.LostMark? || why.Refused?;
        list := list + [Vector(base + i, irq)];
        numVectors := numVectors + 1;
        i := i + 1;
      }
      assert Vectors(base, irqs)[..nvec] == Vectors(base, irqs);
      ok := true;
    }

    /** Map one vector of the range. Only a return value of 0 is taken for a failure: an invalid virq is
        recorded like any other. */
    method MapVector(core: IrqCore, d: nat, base: nat, i: nat, ghost s: State, ghost irqs: seq<nat>)
        returns (irq: nat, ghost why: Outcome)
      requires Inv(s) && Inv(core.Now()) && i < |irqs| && irqs[i] == INVALID
      requires Plus(s, core.Now(), d, Vectors(base, irqs))
      modifies core
      ensures Inv(core.Now()) && Plus(s, core.Now(), d, Vectors(base, irqs[i := irq]))
      ensures why.Fine? <==> irq != INVALID
      ensures why.Fine? || why.Infeasible? ==> (irq != INVALID <==> ClearBits(old(core.bitmap)) > 0)
      ensures ClearBits(core.bitmap) == ClearBits(old(core.bitmap)) - if why.Fine? then 1 else 0
      ensures core.failures == old(core.failures) + if why.NoMemory? || why.LostMark? then 1 else 0
      ensures core.refusals == old(core.refusals) + if why.Refused? then 1 else 0
    {
      hide Base;
      hide IntactBelow;
      hide Owned;
      hide Plus;
      hide Feasible;
      hide ClearBits;
      ghost var t, es := core.Now(), Vectors(base, irqs);
      PlusShape(s, t, d, es);
      PlusAt(s, t, d, es, i);
      BelowLess(t, |t.domains|, d + 1);
      BaseBasics(t);
      RangeFeasible(s, t, d, base + i, es);
      SomeClear(t.bitmap);
      irq, why := core.CreateMapping(d, base + i);
      if why.Fine? {
        PlusBind(s, t, d, es, i);
        AttachRoot(t, d, base + i);
        ClearBitsUpdate(t.bitmap, FirstClear(t.bitmap), true);
        assert Vectors(base, irqs[i := irq]) == es[i := Vector(base + i, irq)];
      } else {
        if why.LostMark? || why.Refused? { PlusUnmark(s, t, d, es, i); }
        assert irqs[i := irq] == irqs;
      }
    }

    /** The first vector on the list with the number. */
    method FindVector(h: nat) returns (found: bool, at: nat)
      ensures found ==> at < |list| && list[at].hwirq == h && forall j :: 0 <= j < at ==> list[j].hwirq != h
      ensures !found ==> forall j :: 0 <= j < |list| ==> list[j].hwirq != h
    {
      at := 0;
      while at < |list|
        invariant 0 <= at <= |list| && forall j :: 0 <= j < at ==> list[j].hwirq != h
      {
        if list[at].hwirq == h { return true, at; }
        at := at + 1;
      }
      return false, 0;
    }

    /** Dispose of a vector's mapping, if it has one. */
    method DisposeVector(core: IrqCore, irq: nat, ghost d: nat, ghost s: State, ghost es: seq<Vector>, ghost k: nat)
      requires Inv(s) && Inv(core.Now()) && Plus(s, core.Now(), d, es) && k < |es| && irq == es[k].irq
      modifies core`bitmap, core`descs, core`domains
      ensures Inv(core.Now()) && Plus(s, core.Now(), d, es[k := Vector(es[k].hwirq, INVALID)])
    {
      ghost var t := core.Now();
      if irq == INVALID {
        assert es[k := Vector(es[k].hwirq, INVALID)] == es;
      } else {
        PlusUnbind(s, t, d, es, k);
        Disposable(s, t, d, es, k);
      }
      core.Dispose(irq);
    }

    /** Undo `i` vectors and the reservation of the whole range. */
    method Cleanup(core: IrqCore, d: nat, base: nat, i: nat, nvec: nat, ghost before: seq<Vector>, ghost irqs: seq<nat>, ghost s: State)
      requires Inv(s) && Inv(core.Now()) && i <= nvec == |irqs| && Plus(s, core.Now(), d, Vectors(base, irqs))
      requires list == before + Vectors(base, irqs)[..i] && numVectors == |list|
      requires forall k :: i <= k < |irqs| ==> irqs[k] == INVALID
      requires Placed(s, d, before)
      modifies this, core`bitmap, core`descs, core`domains
      ensures core.Now() == s && list == before && numVectors == |list|
    {
      hide Inv;
      hide Plus;
      hide Placed;
      var k := i;
      ghost var left: seq<nat> := irqs;
      while k > 0
        invariant 0 <= k <= i && |left| == |irqs| && Inv(core.Now()) && Plus(s, core.Now(), d, Vectors(base, left))
        invariant list == before + Vectors(base, left)[..k] && numVectors == |list|
        invariant forall j :: k <= j < |left| ==> left[j] == INVALID
      {
        k := k - 1;
        OnlyLast(s, core.Now(), d, before, base, left, k);
        var found, at := FindVector(base + k);
        if found {
          DisposeVector(core, list[at].irq, d, s, Vectors(base, left), k);
          assert Vectors(base, left[k := INVALID]) == Vectors(base, left)[k := Vector(base + k, INVALID)];
          assert Vectors(base, left[k := INVALID])[..k] == Vectors(base, left)[..k];
          list := list[..at] + list[at + 1..];
          numVectors := numVectors - 1;
          left := left[k := INVALID];
        }
      }
      ghost var t := core.Now();
      PlusShape(s, t, d, Vectors(base, left));
      FreeHwirqRange(core, d, base, nvec);
      PlusReleased(s, t, d, base, left, |left|);
      PlusDropAll(s, core.Now(), d, Vectors(base, left));
    }

    /** Give all vectors back: exactly they go, whatever other devices hold. */
    method FreeVectors(core: IrqCore, d: nat)
      requires Inv(core.Now()) && AllHeld(core.Now(), d, list) && DistinctNumbers(list) && numVectors == |list|
      modifies this, core
      ensures Inv(core.Now()) && core.Now() == Strip(old(core.Now()), d, old(list)) && list == [] && numVectors == 0
    {
      hide Inv;
      while list != []
        invariant Inv(core.Now()) && AllHeld(core.Now(), d, list) && DistinctNumbers(list) && numVectors == |list|
        invariant Strip(core.Now(), d, list) == Strip(old(core.Now()), d, old(list))
        decreases |list|
      {
        var desc := list[0];
        ghost var t := core.Now();
        assert Held(t, d, desc);
        UnmappedSound(t, d, desc);
        StripStep(t, d, list);
        VectorDisposed(t, d, desc);
        if desc.irq != 0 { core.Dispose(desc.irq); }
        assert core.Now() == Unmapped(t, d, desc);
        FreeHwirqRange(core, d, desc.hwirq, 1);
        list := list[1..];
        numVectors := numVectors - 1;
      }
    }
  }
}
