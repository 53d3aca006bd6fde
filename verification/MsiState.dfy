/** Vector ranges: which hardware interrupts of a domain are free, and what a device's
    vectors add to the interrupt state.
 */
module MsiState {
  import opened Bits
  import opened Options
  import opened IrqState
  import opened IrqMappings

  /** Hardware numbers a tree domain hands out in ranges are below this. */
  const MAX_HWIRQ: nat := 0xFF_FFFF

  /** Neither mapped nor set aside. */
  predicate FreeAt(m: Domain, h: nat) {
    if m.kind.Tree? then h !in m.tree else h < |m.linear| && m.linear[h] == 0
  }

  function Limit(m: Domain): nat {
    if m.kind.Tree? then MAX_HWIRQ else |m.linear|
  }

  ghost predicate FreeRun(m: Domain, base: nat, count: nat) {
    base + count <= Limit(m) && forall h: nat :: base <= h < base + count ==> FreeAt(m, h)
  }

  /** The lowest run of free hardware interrupts. */
  ghost predicate LowestRun(m: Domain, base: nat, count: nat) {
    FreeRun(m, base, count) && forall b: nat :: b < base ==> !FreeRun(m, b, count)
  }

  /** The range set aside; only trees can do that. */
  function Reserve(m: Domain, base: nat, count: nat): Domain {
    if !m.kind.Tree? || count == 0 then m
    else var n := Reserve(m, base, count - 1); n.(tree := n.tree[base + count - 1 := Reserved])
  }

  lemma {:induction false} ReservedSlots(m: Domain, base: nat, count: nat)
    ensures var n := Reserve(m, base, count);
            && n.kind == m.kind && n.linear == m.linear && n.revmap == m.revmap
            && (forall h: nat :: h < base || h >= base + count || !m.kind.Tree? ==> SameSlot(m, n, h))
            && (forall h: nat :: m.kind.Tree? && base <= h < base + count ==> h in n.tree && n.tree[h] == Reserved)
  {
    if m.kind.Tree? && count > 0 {
      ReservedSlots(m, base, count - 1);
      var n := Reserve(m, base, count);
      forall h: nat | h < base || h >= base + count ensures SameSlot(m, n, h) {
        assert SameSlot(m, Reserve(m, base, count - 1), h);
      }
    }
  }

  predicate SameSlot(m: Domain, n: Domain, h: nat) {
    && (h in m.tree <==> h in n.tree) && (h in m.tree ==> n.tree[h] == m.tree[h])
    && |m.linear| == |n.linear| && |m.revmap| == |n.revmap|
    && (h < |m.linear| ==> n.linear[h] == m.linear[h]) && (h < |m.revmap| ==> n.revmap[h] == m.revmap[h])
  }

  // -------------------------------------------------------------- a device's vectors

  /** A vector: its hardware interrupt and its virq, or `INVALID`. */
  datatype Vector = Vector(hwirq: nat, irq: nat)

  function Vectors(base: nat, irqs: seq<nat>): (es: seq<Vector>)
    ensures |es| == |irqs|
  {
    seq(|irqs|, i requires 0 <= i < |irqs| => Vector(base + i, irqs[i]))
  }

  ghost predicate NumbersOf(es: seq<Vector>, h: nat) {
    exists i :: 0 <= i < |es| && es[i].hwirq == h
  }

  ghost predicate IrqOf(es: seq<Vector>, v: nat) {
    exists i :: 0 <= i < |es| && es[i].irq == v
  }

  /** A vector without virq is unmapped; one with a virq has its own, that was free before. */
  ghost predicate VectorOk(s: State, t: State, d: nat, e: Vector)
    requires d < |s.domains| && d < |t.domains|
  {
    && FreeAt(s.domains[d], e.hwirq)
    && (e.irq == INVALID ==> Lookup(t.domains[d], e.hwirq) == 0)
    && (e.irq != INVALID ==>
          && 0 < e.irq < |s.bitmap| && e.irq < |s.descs| && e.irq < |t.descs| && e.irq < |t.bitmap|
          && Lookup(t.domains[d], e.hwirq) == e.irq
          && !s.bitmap[e.irq] && s.descs[e.irq].None?
          && t.descs[e.irq] == Some(Desc(e.hwirq, Some(d), 0, false)))
  }

  ghost predicate OnlyHere(s: State, t: State, d: nat, es: seq<Vector>)
    requires d < |s.domains| && d < |t.domains|
  {
    && |t.bitmap| == |s.bitmap| && |t.descs| == |s.descs| && |t.domains| == |s.domains|
    && (forall c :: 0 <= c < |s.domains| && c != d ==> t.domains[c] == s.domains[c])
    && t.domains[d].kind == s.domains[d].kind
    && |t.domains[d].linear| == |s.domains[d].linear| && |t.domains[d].revmap| == |s.domains[d].revmap|
    && (forall h: nat :: !NumbersOf(es, h) ==> SameSlot(s.domains[d], t.domains[d], h))
    && (forall v: nat :: v < |s.bitmap| && !IrqOf(es, v) ==> t.bitmap[v] == s.bitmap[v])
    && (forall v: nat :: v < |s.descs| && !IrqOf(es, v) ==> t.descs[v] == s.descs[v])
  }

  ghost predicate DistinctNumbers(es: seq<Vector>) {
    forall i, j :: 0 <= i < j < |es| ==> es[i].hwirq != es[j].hwirq
  }

  /** State `t` is `s` plus the vectors, and nothing else. */
  ghost predicate Plus(s: State, t: State, d: nat, es: seq<Vector>) {
    && d < |s.domains| && d < |t.domains| && !s.domains[d].kind.Hierarchy?
    && OnlyHere(s, t, d, es) && DistinctNumbers(es)
    && forall i :: 0 <= i < |es| ==> VectorOk(s, t, d, es[i])
  }

  lemma PlusAt(s: State, t: State, d: nat, es: seq<Vector>, i: nat)
    requires Plus(s, t, d, es) && i < |es|
    ensures d < |s.domains| && d < |t.domains| && VectorOk(s, t, d, es[i])
  {
  }

  lemma PlusShape(s: State, t: State, d: nat, es: seq<Vector>)
    requires Plus(s, t, d, es)
    ensures d < |s.domains| == |t.domains| && !s.domains[d].kind.Hierarchy? && !t.domains[d].kind.Hierarchy?
  {
  }

  /** No vectors: nothing changed. */
  lemma PlusNothing(s: State, t: State, d: nat)
    requires Plus(s, t, d, [])
    ensures s == t
  {
    var m, n := s.domains[d], t.domains[d];
    assert forall h: nat :: SameSlot(m, n, h);
    forall h: nat ensures (h in m.tree <==> h in n.tree) && (h in m.tree ==> m.tree[h] == n.tree[h]) {
      assert SameSlot(m, n, h);
    }
    forall h: nat | h < |m.linear| ensures m.linear[h] == n.linear[h] { assert SameSlot(m, n, h); }
    forall h: nat | h < |m.revmap| ensures m.revmap[h] == n.revmap[h] { assert SameSlot(m, n, h); }
    assert m.linear == n.linear && m.revmap == n.revmap && m.tree == n.tree;
    assert s.bitmap == t.bitmap && s.descs == t.descs && s.domains == t.domains;
  }

  /** Setting a range aside, as vectors still without virqs. */
  lemma PlusReserved(s: State, d: nat, base: nat, count: nat)
    requires Base(s) && d < |s.domains| && !s.domains[d].kind.Hierarchy? && FreeRun(s.domains[d], base, count)
    ensures var t := s.(domains := s.domains[d := Reserve(s.domains[d], base, count)]);
            Plus(s, t, d, Vectors(base, seq(count, _ => INVALID))) && forall c: nat, h: nat :: Mapped(t, c, h) == Mapped(s, c, h)
  {
    var m := s.domains[d];
    var n, es := Reserve(m, base, count), Vectors(base, seq(count, _ => INVALID));
    var t := s.(domains := s.domains[d := n]);
    ReservedSlots(m, base, count);
    forall h: nat ensures (NumbersOf(es, h) <==> base <= h < base + count) && Lookup(n, h) == Lookup(m, h) {
      if base <= h < base + count {
        assert es[h - base].hwirq == h && FreeAt(m, h);
      } else {
        assert SameSlot(m, n, h);
      }
    }
    forall i | 0 <= i < |es| ensures VectorOk(s, t, d, es[i]) { assert es[i].hwirq == base + i && FreeAt(m, base + i); }
    forall c: nat, h: nat ensures Mapped(t, c, h) == Mapped(s, c, h) {
      if c == d { assert Lookup(n, h) == Lookup(m, h); }
    }
  }

  // -------------------------------------------------------------- binding and unbinding one vector

  lemma SameNumbers(es: seq<Vector>, k: nat, v: nat)
    requires k < |es|
    ensures var fs := es[k := Vector(es[k].hwirq, v)];
            forall h: nat :: NumbersOf(fs, h) <==> NumbersOf(es, h)
  {
    var fs := es[k := Vector(es[k].hwirq, v)];
    assert forall i :: 0 <= i < |es| ==> fs[i].hwirq == es[i].hwirq;
    forall h: nat ensures NumbersOf(fs, h) <==> NumbersOf(es, h) {
      if NumbersOf(es, h) { var i :| 0 <= i < |es| && es[i].hwirq == h; assert fs[i].hwirq == h; }
      if NumbersOf(fs, h) { var i :| 0 <= i < |fs| && fs[i].hwirq == h; assert es[i].hwirq == h; }
    }
  }

  /** The virqs of the other vectors, when one changes. */
  lemma OtherIrqs(es: seq<Vector>, k: nat, v: nat, w: nat)
    requires k < |es| && w != v && w != es[k].irq
    ensures IrqOf(es[k := Vector(es[k].hwirq, v)], w) <==> IrqOf(es, w)
  {
    var fs := es[k := Vector(es[k].hwirq, v)];
    if IrqOf(es, w) { var i :| 0 <= i < |es| && es[i].irq == w; assert fs[i].irq == w; }
    if IrqOf(fs, w) { var i :| 0 <= i < |fs| && fs[i].irq == w; assert es[i].irq == w; }
  }

  /** No other vector has the number. */
  lemma OneNumber(es: seq<Vector>, k: nat, h: nat)
    requires DistinctNumbers(es) && k < |es| && es[k].hwirq == h
    ensures forall i :: 0 <= i < |es| && i != k ==> es[i].hwirq != h
  {
  }

  /** Mapping a vector's hardware interrupt gives it a virq. */
  lemma PlusBind(s: State, t: State, d: nat, es: seq<Vector>, k: nat)
    requires Inv(s) && Inv(t) && Plus(s, t, d, es) && k < |es| && es[k].irq == INVALID && Feasible(t, d, es[k].hwirq)
    ensures var u := Attach(t, d, es[k].hwirq);
            Plus(s, u, d, es[k := Vector(es[k].hwirq, Mapped(u, d, es[k].hwirq))])
  {
    var h, m := es[k].hwirq, t.domains[d];
    var v, u := FirstClear(t.bitmap), Attach(t, d, h);
    assert VectorOk(s, t, d, es[k]);
    FreshVirq(t);
    AttachRoot(t, d, h);
    StoreLookup(m, h, v, h);
    var fs := es[k := Vector(h, v)];
    SameNumbers(es, k, v);
    OneNumber(es, k, h);
    NewIrq(s, t, d, es, v);
    forall i | 0 <= i < |fs| ensures VectorOk(s, u, d, fs[i]) {
      if i != k {
        assert VectorOk(s, t, d, es[i]);
        StoreLookup(m, h, v, es[i].hwirq);
      }
    }
    assert fs[k].irq == v && fs[k].hwirq == h;
    forall w: nat | w < |s.bitmap| && !IrqOf(fs, w) ensures u.bitmap[w] == s.bitmap[w] && u.descs[w] == s.descs[w] {
      if w != INVALID { OtherIrqs(es, k, v, w); }
    }
    forall g: nat | !NumbersOf(fs, g) ensures SameSlot(s.domains[d], u.domains[d], g) {
      assert g != h && SameSlot(s.domains[d], m, g);
    }
    assert DistinctNumbers(fs);
  }

  /** A virq free in `t` is used by no vector and was free in `s`. */
  lemma NewIrq(s: State, t: State, d: nat, es: seq<Vector>, v: nat)
    requires Inv(s) && Inv(t) && Plus(s, t, d, es) && 0 < v < MAX_VIRQ && !t.bitmap[v]
    ensures !IrqOf(es, v) && !s.bitmap[v] && s.descs[v].None?
  {
    forall i | 0 <= i < |es| ensures es[i].irq != v {
      assert VectorOk(s, t, d, es[i]);
    }
  }

  /** Disposing of a vector's mapping takes its virq away again. */
  lemma PlusUnbind(s: State, t: State, d: nat, es: seq<Vector>, k: nat)
    requires Inv(s) && Inv(t) && Plus(s, t, d, es) && k < |es| && es[k].irq != INVALID
    ensures Intact(t, d, es[k].hwirq) && Mapped(t, d, es[k].hwirq) == es[k].irq
    ensures Plus(s, Detach(t, d, es[k].hwirq), d, es[k := Vector(es[k].hwirq, INVALID)])
  {
    var h, m, v := es[k].hwirq, t.domains[d], es[k].irq;
    assert VectorOk(s, t, d, es[k]);
    MappedIntact(t, d, h, |t.domains|);
    DetachRoot(t, d, h);
    var u := Detach(t, d, h);
    EraseLookup(m, h, h);
    var fs := es[k := Vector(h, INVALID)];
    SameNumbers(es, k, INVALID);
    OneNumber(es, k, h);
    forall i | 0 <= i < |fs| ensures VectorOk(s, u, d, fs[i]) {
      if i != k {
        assert VectorOk(s, t, d, es[i]);
        EraseLookup(m, h, es[i].hwirq);
        if es[i].irq == v { DistinctVirqs(t, d, h, d, es[i].hwirq); }
      }
    }
    forall w: nat | w < |s.bitmap| && !IrqOf(fs, w) ensures u.bitmap[w] == s.bitmap[w] && u.descs[w] == s.descs[w] {
      if w != v && w != INVALID { OtherIrqs(es, k, INVALID, w); }
    }
    forall g: nat | !NumbersOf(fs, g) ensures SameSlot(s.domains[d], u.domains[d], g) {
      assert NumbersOf(es, h) by { assert es[k].hwirq == h; }
      assert g != h && SameSlot(s.domains[d], m, g);
    }
    assert DistinctNumbers(fs);
  }

  // -------------------------------------------------------------- giving vectors up

  /** Without virq, a vector may also lose its reservation. */
  lemma PlusUnmark(s: State, t: State, d: nat, es: seq<Vector>, k: nat)
    requires Inv(t) && Plus(s, t, d, es) && k < |es| && es[k].irq == INVALID
    ensures Plus(s, Unmark(t, d, es[k].hwirq), d, es) && Inv(Unmark(t, d, es[k].hwirq))
  {
    var h := es[k].hwirq;
    var u := Unmark(t, d, h);
    assert VectorOk(s, t, d, es[k]);
    UnmarkSound(t, d, h, |t.domains|);
    OneNumber(es, k, h);
    forall i | 0 <= i < |es| ensures VectorOk(s, u, d, es[i]) {
      assert VectorOk(s, t, d, es[i]);
    }
    forall g: nat | !NumbersOf(es, g) ensures SameSlot(s.domains[d], u.domains[d], g) {
      assert es[k].hwirq == h;
      assert g != h && SameSlot(s.domains[d], t.domains[d], g);
    }
  }

  lemma FreeSlot(m: Domain, n: Domain, d: nat, h: nat)
    requires DomainOk(m, d) && DomainOk(n, d) && m.kind == n.kind && |m.linear| == |n.linear|
    requires FreeAt(m, h) && FreeAt(n, h)
    ensures SameSlot(m, n, h)
  {
  }

  /** The range without its reservations; what is mapped stays. */
  function Release(m: Domain, base: nat, count: nat): Domain {
    if !m.kind.Tree? || count == 0 then m
    else
      var n, h := Release(m, base, count - 1), base + count - 1;
      if h in n.tree && n.tree[h] == Reserved then n.(tree := n.tree - {h}) else n
  }

  /** Of the range exactly the reservations go; bound numbers stay. */
  lemma {:induction false} ReleasedSlots(m: Domain, base: nat, count: nat)
    ensures var n := Release(m, base, count);
            && n == m.(tree := n.tree) && (!m.kind.Tree? ==> n == m)
            && (m.kind.Tree? ==>
                 forall h: nat :: (h in n.tree <==> h in m.tree && !(base <= h < base + count && m.tree[h] == Reserved)) &&
                                  (h in n.tree ==> n.tree[h] == m.tree[h]))
  {
    if m.kind.Tree? && count > 0 { ReleasedSlots(m, base, count - 1); }
  }

  /** Releasing the reservation of a vector without virq frees its number. */
  lemma PlusReleaseOne(s: State, t: State, d: nat, es: seq<Vector>, k: nat)
    requires Inv(s) && Inv(t) && Plus(s, t, d, es) && k < |es| && es[k].irq == INVALID
    ensures var u := t.(domains := t.domains[d := Release(t.domains[d], es[k].hwirq, 1)]);
            && Plus(s, u, d, es) && Inv(u) && SameSlot(s.domains[d], u.domains[d], es[k].hwirq)
            && forall h: nat :: h != es[k].hwirq ==> SameSlot(t.domains[d], u.domains[d], h)
  {
    var h, m := es[k].hwirq, t.domains[d];
    assert VectorOk(s, t, d, es[k]);
    var n := Release(m, h, 1);
    assert Release(m, h, 0) == m;
    var u := t.(domains := t.domains[d := n]);
    if m.kind.Tree? && h in m.tree {
      assert m.tree[h] == Reserved;
      PlusUnmark(s, t, d, es, k);
      assert u == Unmark(t, d, h);
    } else {
      assert u == t;
    }
    FreeSlot(s.domains[d], n, d, h);
  }

  /** Giving up a whole range of vectors without virqs leaves nothing. */
  lemma {:induction false} PlusReleased(s: State, t: State, d: nat, base: nat, irqs: seq<nat>, k: nat)
    requires Inv(s) && Inv(t) && Plus(s, t, d, Vectors(base, irqs)) && k <= |irqs|
    requires forall i :: 0 <= i < |irqs| ==> irqs[i] == INVALID
    ensures var u := t.(domains := t.domains[d := Release(t.domains[d], base, k)]);
            && Plus(s, u, d, Vectors(base, irqs)) && Inv(u)
            && forall g: nat :: base <= g < base + k ==> SameSlot(s.domains[d], u.domains[d], g)
    decreases k
  {
    var es := Vectors(base, irqs);
    if k == 0 {
      assert t.domains[d := t.domains[d]] == t.domains;
    } else {
      PlusReleased(s, t, d, base, irqs, k - 1);
      var w := t.(domains := t.domains[d := Release(t.domains[d], base, k - 1)]);
      PlusReleaseOne(s, w, d, es, k - 1);
      var m, h := w.domains[d], base + k - 1;
      assert es[k - 1].hwirq == h && Release(m, h, 0) == m;
      assert Release(t.domains[d], base, k) == Release(m, h, 1) by { ReleaseKind(t.domains[d], base, k - 1); }
      var u := t.(domains := t.domains[d := Release(t.domains[d], base, k)]);
      assert u == w.(domains := w.domains[d := Release(m, h, 1)]);
      forall g: nat | base <= g < base + k ensures SameSlot(s.domains[d], u.domains[d], g) {
        if g != h { assert SameSlot(s.domains[d], w.domains[d], g) && SameSlot(w.domains[d], u.domains[d], g); }
      }
    }
  }

  lemma {:induction false} ReleaseKind(m: Domain, base: nat, k: nat)
    ensures Release(m, base, k).kind == m.kind
  {
    if k > 0 { ReleaseKind(m, base, k - 1); }
  }

  lemma {:induction false} PlusDropAll(s: State, t: State, d: nat, es: seq<Vector>)
    requires Inv(s) && Inv(t) && Plus(s, t, d, es)
    requires forall i :: 0 <= i < |es| ==> es[i].irq == INVALID && SameSlot(s.domains[d], t.domains[d], es[i].hwirq)
    ensures s == t
    decreases |es|
  {
    if es == [] {
      PlusNothing(s, t, d);
    } else {
      PlusDrop(s, t, d, es);
      PlusDropAll(s, t, d, es[1..]);
    }
  }

  /** A vector without virq or reservation is none. */
  lemma PlusDrop(s: State, t: State, d: nat, es: seq<Vector>)
    requires Inv(s) && Inv(t) && Plus(s, t, d, es) && es != [] && es[0].irq == INVALID
    requires SameSlot(s.domains[d], t.domains[d], es[0].hwirq)
    ensures Plus(s, t, d, es[1..])
  {
    var fs := es[1..];
    forall i | 0 <= i < |fs| ensures VectorOk(s, t, d, fs[i]) { assert VectorOk(s, t, d, es[i + 1]); }
    forall h: nat | !NumbersOf(fs, h) ensures SameSlot(s.domains[d], t.domains[d], h) {
      if h != es[0].hwirq {
        forall i | 0 <= i < |es| ensures es[i].hwirq != h { if i > 0 { assert fs[i - 1] == es[i]; } }
      }
    }
    forall v: nat | v < MAX_VIRQ && !IrqOf(fs, v) ensures !IrqOf(es, v) {
      forall i | 0 <= i < |es| ensures es[i].irq != v { if i > 0 { assert fs[i - 1] == es[i]; } }
    }
    assert DistinctNumbers(fs);
  }

  /** The vectors are still mapped or set aside. */
  ghost predicate Placed(s: State, d: nat, es: seq<Vector>)
    requires d < |s.domains|
  {
    forall i :: 0 <= i < |es| ==> !FreeAt(s.domains[d], es[i].hwirq)
  }

  /** More vectors on top of those a device holds already. */
  lemma PlusMore(r: State, s: State, t: State, d: nat, xs: seq<Vector>, ys: seq<Vector>)
    requires Inv(r) && Inv(s) && Inv(t) && Plus(r, s, d, xs) && Plus(s, t, d, ys) && Placed(s, d, xs)
    ensures Plus(r, t, d, xs + ys)
  {
    var zs := xs + ys;
    forall i | 0 <= i < |xs| ensures VectorOk(r, t, d, xs[i]) && !NumbersOf(ys, xs[i].hwirq) {
      OldVector(r, s, t, d, xs, ys, i);
    }
    forall j | 0 <= j < |ys| ensures VectorOk(r, t, d, ys[j]) {
      NewVector(r, s, t, d, xs, ys, j);
    }
    forall i, j | 0 <= i < j < |zs| ensures zs[i].hwirq != zs[j].hwirq {
      if i < |xs| <= j { assert ys[j - |xs|].hwirq == zs[j].hwirq; }
    }
    forall h: nat | !NumbersOf(zs, h) ensures SameSlot(r.domains[d], t.domains[d], h) {
      SplitNumbers(xs, ys, h);
      assert SameSlot(r.domains[d], s.domains[d], h) && SameSlot(s.domains[d], t.domains[d], h);
    }
    forall v: nat | !IrqOf(zs, v) ensures !IrqOf(xs, v) && !IrqOf(ys, v) {
      forall i | 0 <= i < |xs| ensures xs[i].irq != v { assert zs[i] == xs[i]; }
      forall i | 0 <= i < |ys| ensures ys[i].irq != v { assert zs[|xs| + i] == ys[i]; }
    }
  }

  lemma SplitNumbers(xs: seq<Vector>, ys: seq<Vector>, h: nat)
    requires !NumbersOf(xs + ys, h)
    ensures !NumbersOf(xs, h) && !NumbersOf(ys, h)
  {
    forall i | 0 <= i < |xs| ensures xs[i].hwirq != h { assert (xs + ys)[i] == xs[i]; }
    forall i | 0 <= i < |ys| ensures ys[i].hwirq != h { assert (xs + ys)[|xs| + i] == ys[i]; }
  }

  lemma OldVector(r: State, s: State, t: State, d: nat, xs: seq<Vector>, ys: seq<Vector>, i: nat)
    requires Inv(r) && Inv(s) && Plus(r, s, d, xs) && Plus(s, t, d, ys) && Placed(s, d, xs) && i < |xs|
    ensures VectorOk(r, t, d, xs[i]) && !NumbersOf(ys, xs[i].hwirq)
  {
    assert VectorOk(r, s, d, xs[i]) && !FreeAt(s.domains[d], xs[i].hwirq);
    forall j | 0 <= j < |ys| ensures ys[j].hwirq != xs[i].hwirq && (xs[i].irq != INVALID ==> ys[j].irq != xs[i].irq) {
      assert VectorOk(s, t, d, ys[j]);
    }
    assert SameSlot(s.domains[d], t.domains[d], xs[i].hwirq);
  }

  lemma NewVector(r: State, s: State, t: State, d: nat, xs: seq<Vector>, ys: seq<Vector>, j: nat)
    requires Inv(r) && Inv(s) && Plus(r, s, d, xs) && Plus(s, t, d, ys) && Placed(s, d, xs) && j < |ys|
    ensures VectorOk(r, t, d, ys[j])
  {
    assert VectorOk(s, t, d, ys[j]);
    forall i | 0 <= i < |xs| ensures ys[j].hwirq != xs[i].hwirq && (ys[j].irq != INVALID ==> ys[j].irq != xs[i].irq) {
      assert VectorOk(r, s, d, xs[i]) && !FreeAt(s.domains[d], xs[i].hwirq);
    }
    assert SameSlot(r.domains[d], s.domains[d], ys[j].hwirq);
  }

  /** Nothing hangs from a vector, and no handler holds it: it can be disposed of safely. */
  lemma Disposable(s: State, t: State, d: nat, es: seq<Vector>, k: nat)
    requires Inv(s) && Inv(t) && Plus(s, t, d, es) && k < |es| && es[k].irq != INVALID
    ensures Intact(t, d, es[k].hwirq) && Inv(Detach(t, d, es[k].hwirq))
  {
    var h := es[k].hwirq;
    assert VectorOk(s, t, d, es[k]);
    MappedIntact(t, d, h, |t.domains|);
    assert forall c: nat, g: nat :: OnPath(t, d, h, c, g) ==> c == d && g == h;
    forall c: nat, g: nat ensures !Hangs(t, d, h, c, g) {
      if Mapped(s, c, g) != 0 { MappedIntact(s, c, g, |s.domains|); }
    }
    DetachKeeps(t, d, h);
  }

  // -------------------------------------------------------------- giving vectors up, whatever else went on

  /** A vector that can be given up: without virq its number is unmapped; with one it has its own
      descriptor, without handler, and no other mapping hangs from it. */
  ghost predicate Held(t: State, d: nat, e: Vector) {
    && d < |t.domains| && !t.domains[d].kind.Hierarchy?
    && (e.irq == INVALID ==> Lookup(t.domains[d], e.hwirq) == 0)
    && (e.irq != INVALID ==>
          && 0 < e.irq < |t.descs| && Lookup(t.domains[d], e.hwirq) == e.irq
          && t.descs[e.irq] == Some(Desc(e.hwirq, Some(d), 0, false))
          && forall c: nat, g: nat :: !Hangs(t, d, e.hwirq, c, g))
  }

  ghost predicate AllHeld(t: State, d: nat, es: seq<Vector>) {
    d < |t.domains| && !t.domains[d].kind.Hierarchy? && forall i :: 0 <= i < |es| ==> Held(t, d, es[i])
  }

  /** The state without the vector's mapping. */
  ghost function Unmapped(t: State, d: nat, e: Vector): State {
    if e.irq != INVALID && |t.bitmap| == |t.descs| && Intact(t, d, e.hwirq) then Detach(t, d, e.hwirq) else t
  }

  /** The state without the vector: its mapping disposed of, its reservation released. */
  ghost function Without(t: State, d: nat, e: Vector): State {
    var u := Unmapped(t, d, e);
    if d < |u.domains| then u.(domains := u.domains[d := Release(u.domains[d], e.hwirq, 1)]) else u
  }

  ghost function Strip(t: State, d: nat, es: seq<Vector>): State
    decreases |es|
  {
    if es == [] then t else Strip(Without(t, d, es[0]), d, es[1..])
  }

  lemma UnmappedSound(t: State, d: nat, e: Vector)
    requires Inv(t) && Held(t, d, e)
    ensures e.irq != INVALID ==> Intact(t, d, e.hwirq) && Mapped(t, d, e.hwirq) == e.irq
    ensures var u := Unmapped(t, d, e);
            && Inv(u) && |u.domains| == |t.domains| && |u.descs| == |t.descs| == MAX_VIRQ && Lookup(u.domains[d], e.hwirq) == 0
            && (forall c :: 0 <= c < |t.domains| ==> u.domains[c].kind == t.domains[c].kind)
            && (forall c: nat, g: nat :: Mapped(u, c, g) == if c == d && g == e.hwirq then 0 else Mapped(t, c, g))
            && (forall v: nat :: v < MAX_VIRQ && v != e.irq ==> u.descs[v] == t.descs[v])
  {
    var h := e.hwirq;
    if e.irq != INVALID {
      MappedIntact(t, d, h, |t.domains|);
      assert forall c: nat, g: nat :: OnPath(t, d, h, c, g) ==> c == d && g == h;
      DetachKeeps(t, d, h);
      DetachDomains(t, d, h);
      DetachRoot(t, d, h);
      forall c: nat, g: nat ensures Mapped(Detach(t, d, h), c, g) == if c == d && g == h then 0 else Mapped(t, c, g) {
        DetachMaps(t, d, h, c, g);
      }
      assert Mapped(Detach(t, d, h), d, h) == 0;
    }
  }

  lemma WithoutSound(t: State, d: nat, e: Vector)
    requires Inv(t) && Held(t, d, e)
    ensures var u := Without(t, d, e);
            && Inv(u) && |u.domains| == |t.domains| && |u.descs| == |t.descs| == MAX_VIRQ
            && (forall c :: 0 <= c < |t.domains| ==> u.domains[c].kind == t.domains[c].kind)
            && (forall c: nat, g: nat :: Mapped(u, c, g) == if c == d && g == e.hwirq then 0 else Mapped(t, c, g))
            && (forall v: nat :: v < MAX_VIRQ && v != e.irq ==> u.descs[v] == t.descs[v])
  {
    hide Inv;
    UnmappedSound(t, d, e);
    ReleaseSound(Unmapped(t, d, e), d, e.hwirq);
  }

  lemma ReleaseSound(t: State, d: nat, h: nat)
    requires Inv(t) && d < |t.domains| && Lookup(t.domains[d], h) == 0 && !t.domains[d].kind.Hierarchy?
    ensures var u := t.(domains := t.domains[d := Release(t.domains[d], h, 1)]);
            && Inv(u) && (forall c :: 0 <= c < |t.domains| ==> u.domains[c].kind == t.domains[c].kind)
            && forall c: nat, g: nat :: Mapped(u, c, g) == Mapped(t, c, g)
  {
    var m := t.domains[d];
    assert Release(m, h, 0) == m;
    var u := t.(domains := t.domains[d := Release(m, h, 1)]);
    if m.kind.Tree? && h in m.tree {
      assert m.tree[h] == Reserved;
      UnmarkSound(t, d, h, |t.domains|);
      assert u == Unmark(t, d, h);
    } else {
      assert u == t;
    }
  }

  /** Giving up one vector leaves every other one, of whatever device and domain, as it was. */
  lemma OthersHeld(t: State, c: nat, f: Vector, d: nat, e: Vector)
    requires Inv(t) && Held(t, c, f) && Held(t, d, e) && (c, f.hwirq) != (d, e.hwirq)
    ensures Held(Without(t, c, f), d, e)
  {
    hide Inv;
    hide Without;
    WithoutSound(t, c, f);
    var u := Without(t, c, f);
    assert Mapped(u, d, e.hwirq) == Mapped(t, d, e.hwirq);
    if e.irq != INVALID {
      VirqInRange(t, d, e.hwirq);
      if f.irq == e.irq { DistinctVirqs(t, c, f.hwirq, d, e.hwirq); }
      forall i: nat, g: nat ensures !Hangs(u, d, e.hwirq, i, g) {
        SameHangs(t, u, d, e.hwirq, i, g);
      }
    }
  }

  lemma VirqInRange(t: State, d: nat, h: nat)
    requires Inv(t) && Mapped(t, d, h) != 0
    ensures Mapped(t, d, h) < MAX_VIRQ == |t.descs|
  {
  }

  /** Fewer mappings, fewer that hang. */
  lemma SameHangs(t: State, u: State, d: nat, h: nat, c: nat, g: nat)
    requires |u.domains| == |t.domains| && d < |t.domains| && !t.domains[d].kind.Hierarchy?
    requires forall i :: 0 <= i < |t.domains| ==> u.domains[i].kind == t.domains[i].kind
    requires Mapped(u, c, g) != 0 ==> Mapped(t, c, g) != 0
    ensures Hangs(u, d, h, c, g) ==> Hangs(t, d, h, c, g)
  {
  }

  lemma StripStep(t: State, d: nat, es: seq<Vector>)
    requires Inv(t) && AllHeld(t, d, es) && DistinctNumbers(es) && es != []
    ensures Inv(Without(t, d, es[0])) && AllHeld(Without(t, d, es[0]), d, es[1..]) && DistinctNumbers(es[1..])
  {
    hide Inv;
    hide Without;
    assert Held(t, d, es[0]);
    WithoutSound(t, d, es[0]);
    forall i | 0 <= i < |es[1..]| ensures Held(Without(t, d, es[0]), d, es[1..][i]) {
      assert Held(t, d, es[i + 1]);
      OthersHeld(t, d, es[0], d, es[i + 1]);
    }
  }

  /** Another device's allocation on top leaves this device's vectors as they were. */
  lemma HeldAfterAlloc(t: State, u: State, c: nat, fs: seq<Vector>, d: nat, es: seq<Vector>)
    requires Inv(t) && Inv(u) && Plus(t, u, c, fs) && AllHeld(t, d, es) && Placed(t, d, es)
    ensures AllHeld(u, d, es) && Placed(u, d, es)
  {
    hide Inv;
    forall i | 0 <= i < |es| ensures Held(u, d, es[i]) && !FreeAt(u.domains[d], es[i].hwirq) {
      assert Held(t, d, es[i]) && !FreeAt(t.domains[d], es[i].hwirq);
      OneHeldAfterAlloc(t, u, c, fs, d, es[i]);
    }
  }

  lemma OneHeldAfterAlloc(t: State, u: State, c: nat, fs: seq<Vector>, d: nat, e: Vector)
    requires Inv(t) && Plus(t, u, c, fs) && Held(t, d, e) && !FreeAt(t.domains[d], e.hwirq)
    ensures Held(u, d, e) && !FreeAt(u.domains[d], e.hwirq)
  {
    if d == c {
      forall j | 0 <= j < |fs| ensures fs[j].hwirq != e.hwirq { assert VectorOk(t, u, c, fs[j]); }
      assert SameSlot(t.domains[d], u.domains[d], e.hwirq);
    }
    if e.irq != INVALID {
      forall j | 0 <= j < |fs| ensures fs[j].irq != e.irq { assert VectorOk(t, u, c, fs[j]); }
      forall i: nat, g: nat ensures !Hangs(u, d, e.hwirq, i, g) {
        assert !Hangs(t, d, e.hwirq, i, g);
        if i < |u.domains| && i != c { assert u.domains[i] == t.domains[i]; }
      }
    }
  }

  /** What an allocation adds can be given up, and giving it up undoes the allocation. */
  lemma {:induction false} StripUndoes(s: State, t: State, d: nat, es: seq<Vector>)
    requires Inv(s) && Inv(t) && Plus(s, t, d, es)
    ensures AllHeld(t, d, es) && DistinctNumbers(es) && Strip(t, d, es) == s
    decreases |es|
  {
    hide Inv;
    hide Without;
    PlusHeld(s, t, d, es);
    if es == [] {
      PlusNothing(s, t, d);
    } else {
      StripStep(t, d, es);
      PlusWithout(s, t, d, es);
      StripUndoes(s, Without(t, d, es[0]), d, es[1..]);
    }
  }

  lemma PlusWithout(s: State, t: State, d: nat, es: seq<Vector>)
    requires Inv(s) && Inv(t) && Plus(s, t, d, es) && es != []
    ensures Plus(s, Without(t, d, es[0]), d, es[1..])
  {
    hide Inv;
    var e := es[0];
    var fs := es[0 := Vector(e.hwirq, INVALID)];
    if e.irq == INVALID {
      assert fs == es;
    } else {
      PlusUnbind(s, t, d, es, 0);
      Disposable(s, t, d, es, 0);
      TablesEqual(t);
    }
    var u := Unmapped(t, d, e);
    PlusReleaseOne(s, u, d, fs, 0);
    PlusDrop(s, Without(t, d, e), d, fs);
    assert fs[1..] == es[1..];
  }

  lemma TablesEqual(t: State)
    requires Inv(t)
    ensures |t.bitmap| == |t.descs|
  {
  }

  lemma PlusHeld(s: State, t: State, d: nat, es: seq<Vector>)
    requires Inv(s) && Inv(t) && Plus(s, t, d, es)
    ensures AllHeld(t, d, es)
  {
    forall k | 0 <= k < |es| ensures Held(t, d, es[k]) {
      assert VectorOk(s, t, d, es[k]);
      var h := es[k].hwirq;
      forall c: nat, g: nat ensures !Hangs(t, d, h, c, g) {
        if Mapped(s, c, g) != 0 { MappedIntact(s, c, g, |s.domains|); }
      }
    }
  }
}
