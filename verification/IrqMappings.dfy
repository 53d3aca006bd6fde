/** What mapping and unmapping do to the whole state: the invariant they keep, the
    mappings they make and remove, and when one undoes the other.
 */
module IrqMappings {
  import opened Bits
  import opened Options
  import opened IrqState

  // -------------------------------------------------------------- single steps

  lemma StoreLookup(m: Domain, h: nat, v: nat, g: nat)
    requires InRange(m, h) && |m.revmap| == |m.linear|
    ensures Lookup(Store(m, h, v), g) == if g == h then v else Lookup(m, g)
  {
  }

  lemma EraseLookup(m: Domain, h: nat, g: nat)
    requires |m.revmap| == |m.linear|
    ensures Lookup(Erase(m, h), g) == if g == h then 0 else Lookup(m, g)
  {
  }

  /** Lookups in domain `d` keep their answers where they had one. */
  ghost predicate Extends(m: Domain, n: Domain) {
    n.kind == m.kind && forall g: nat :: Lookup(m, g) != 0 ==> Lookup(n, g) == Lookup(m, g)
  }

  /** The descriptor of `v` does not name a mapping in the domains up to `c`. */
  predicate Unused(s: State, v: nat, c: nat) {
    v < |s.descs| && (s.descs[v].None? || s.descs[v].value.domain.None? || s.descs[v].value.domain.value > c)
  }

  /** An intact mapping stays so when a virq its path does not use changes and a domain grows. */
  lemma {:induction false} IntactOver(s: State, v: nat, bit: bool, e: Option<Desc>, d: nat, m: Domain, c: nat, g: nat)
    requires v < |s.bitmap| && d < |s.domains| && Intact(s, c, g) && Unused(s, v, c)
    requires c >= d ==> Extends(s.domains[d], m)
    ensures Intact(Over(s, v, bit, e, d, m), c, g)
    ensures Mapped(Over(s, v, bit, e, d, m), c, g) == Mapped(s, c, g)
    decreases c
  {
    var n := s.domains[c];
    if n.kind.Hierarchy? {
      IntactOver(s, v, bit, e, d, m, n.kind.parent, Up(n, g));
    }
  }

  lemma {:induction false} IntactTaken(s: State, v: nat, c: nat, g: nat)
    requires v < |s.bitmap| && Intact(s, c, g)
    ensures Intact(Taken(s, v), c, g)
    decreases c
  {
    var n := s.domains[c];
    if n.kind.Hierarchy? { IntactTaken(s, v, n.kind.parent, Up(n, g)); }
  }

  lemma TakenSound(s: State, v: nat, k: nat)
    requires Base(s) && IntactBelow(s, k) && v < MAX_VIRQ
    ensures Base(Taken(s, v)) && IntactBelow(Taken(s, v), k)
  {
    var t := Taken(s, v);
    assert forall c: nat, g: nat :: Mapped(t, c, g) == Mapped(s, c, g);
    forall c: nat, g: nat | c < k && Mapped(t, c, g) != 0 ensures Intact(t, c, g) { IntactTaken(s, v, c, g); }
  }

  /** A mapping with its own descriptor. */
  function WithPair(s: State, d: nat, h: nat, v: nat, parent: nat): State
    requires v < |s.bitmap| && v < |s.descs| && d < |s.domains|
  {
    Over(s, v, true, Some(Desc(h, Some(d), parent, false)), d, Store(s.domains[d], h, v))
  }

  lemma PairMapped(s: State, d: nat, h: nat, v: nat, parent: nat, c: nat, g: nat)
    requires Base(s) && 0 < v < MAX_VIRQ && d < |s.domains| && InRange(s.domains[d], h)
    ensures Mapped(WithPair(s, d, h, v, parent), c, g) == if c == d && g == h then v else Mapped(s, c, g)
  {
    if c == d { StoreLookup(s.domains[d], h, v, g); }
  }

  /** Adding a mapping of a fresh descriptor keeps the state sound. */
  lemma PairSound(s: State, d: nat, h: nat, v: nat, parent: nat, k: nat)
    requires Base(s) && IntactBelow(s, k) && 0 < v < MAX_VIRQ && d < |s.domains| && d < k && InRange(s.domains[d], h)
    requires s.descs[v].None? && Mapped(s, d, h) == 0
    requires var m := s.domains[d];
             m.kind.Hierarchy? ==> parent == Mapped(s, m.kind.parent, Up(m, h)) && Intact(s, m.kind.parent, Up(m, h))
    ensures var t := WithPair(s, d, h, v, parent);
            Base(t) && IntactBelow(t, k) && Intact(t, d, h) && (Owned(s) ==> Owned(t))
  {
    hide Store;
    var t, m := WithPair(s, d, h, v, parent), s.domains[d];
    PairExtends(s, d, h, v);
    forall c: nat, g: nat ensures Mapped(t, c, g) == if c == d && g == h then v else Mapped(s, c, g) {
      PairMapped(s, d, h, v, parent, c, g);
    }
    StoreOk(m, d, h, v);
    PairIntact(s, d, h, v, parent);
    forall c: nat, g: nat | c < k && Mapped(t, c, g) != 0 ensures Intact(t, c, g) {
      if c != d || g != h { IntactOver(s, v, true, Some(Desc(h, Some(d), parent, false)), d, Store(m, h, v), c, g); }
    }
    assert DomainsOk(t) && TablesOk(t) && Pointers(t);
  }

  lemma PairIntact(s: State, d: nat, h: nat, v: nat, parent: nat)
    requires Base(s) && 0 < v < MAX_VIRQ && d < |s.domains| && InRange(s.domains[d], h) && s.descs[v].None?
    requires var m := s.domains[d];
             m.kind.Hierarchy? ==> parent == Mapped(s, m.kind.parent, Up(m, h)) && Intact(s, m.kind.parent, Up(m, h))
    ensures Intact(WithPair(s, d, h, v, parent), d, h)
  {
    var m := s.domains[d];
    PairMapped(s, d, h, v, parent, d, h);
    if m.kind.Hierarchy? {
      IntactOver(s, v, true, Some(Desc(h, Some(d), parent, false)), d, Store(m, h, v), m.kind.parent, Up(m, h));
    }
  }

  lemma PairExtends(s: State, d: nat, h: nat, v: nat)
    requires Base(s) && d < |s.domains| && InRange(s.domains[d], h) && Mapped(s, d, h) == 0
    ensures Extends(s.domains[d], Store(s.domains[d], h, v))
  {
    forall g: nat | Lookup(s.domains[d], g) != 0 ensures Lookup(Store(s.domains[d], h, v), g) == Lookup(s.domains[d], g) {
      StoreLookup(s.domains[d], h, v, g);
    }
  }

  lemma StoreOk(m: Domain, d: nat, h: nat, v: nat)
    requires DomainOk(m, d) && v != 0
    ensures DomainOk(Store(m, h, v), d)
  {
  }

  // -------------------------------------------------------------- mapping

  /** Mapping keeps what must hold at every moment, and what must hold between operations. */
  lemma {:induction false} AttachSound(s: State, d: nat, h: nat, k: nat)
    requires Base(s) && IntactBelow(s, k) && d < k && Feasible(s, d, h)
    ensures var t := Attach(s, d, h);
            Base(t) && IntactBelow(t, k) && Intact(t, d, h) && (Owned(s) ==> Owned(t))
    decreases d
  {
    hide Base;
    hide IntactBelow;
    if Mapped(s, d, h) == 0 {
      var v, m := FirstClear(s.bitmap), s.domains[d];
      FreshVirq(s);
      if m.kind.Hierarchy? {
        var p, g := m.kind.parent, Up(m, h);
        AttachHierarchy(s, d, h);
        TakenSound(s, v, k);
        AttachSound(Taken(s, v), p, g, k);
        var up := Attach(Taken(s, v), p, g);
        PairSound(up, d, h, v, Mapped(up, p, g), k);
      } else {
        AttachRoot(s, d, h);
        PairSound(s, d, h, v, 0, k);
      }
    } else {
      MappedIntact(s, d, h, k);
    }
  }

  lemma MappedIntact(s: State, d: nat, h: nat, k: nat)
    requires IntactBelow(s, k) && d < k && Mapped(s, d, h) != 0
    ensures Intact(s, d, h)
  {
  }

  /** The virq chosen for a new mapping is not 0 and has no descriptor. */
  lemma FreshVirq(s: State)
    requires Base(s) && FirstClear(s.bitmap) < |s.bitmap|
    ensures 0 < FirstClear(s.bitmap) < MAX_VIRQ == |s.bitmap| == |s.descs| && s.descs[FirstClear(s.bitmap)].None?
  {
  }

  /** The hardware interrupts an operation on `(d, h)` is about: itself and its parents. */
  predicate OnPath(s: State, d: nat, h: nat, c: nat, g: nat)
    decreases d
  {
    (c == d && g == h) ||
    (d < |s.domains| && s.domains[d].kind.Hierarchy? && s.domains[d].kind.parent < d &&
     OnPath(s, s.domains[d].kind.parent, Up(s.domains[d], h), c, g))
  }

  lemma {:induction false} PathMapped(s: State, d: nat, h: nat, c: nat, g: nat)
    requires Intact(s, d, h) && OnPath(s, d, h, c, g)
    ensures Mapped(s, c, g) != 0
    decreases d
  {
    var m := s.domains[d];
    if m.kind.Hierarchy? && !(c == d && g == h) { PathMapped(s, m.kind.parent, Up(m, h), c, g); }
  }

  /** How many of the mapping and its parents are missing, up to the first that exists. */
  function Missing(s: State, d: nat, h: nat): nat
    decreases d
  {
    if d >= |s.domains| || Mapped(s, d, h) != 0 then 0
    else
      var m := s.domains[d];
      if m.kind.Hierarchy? && m.kind.parent < d then 1 + Missing(s, m.kind.parent, Up(m, h)) else 1
  }

  /** Each of those missing is within its domain. */
  predicate PathInRange(s: State, d: nat, h: nat)
    decreases d
  {
    d < |s.domains| &&
    (Mapped(s, d, h) != 0 ||
     var m := s.domains[d];
     InRange(m, h) && (m.kind.Hierarchy? ==> m.kind.parent < d && PathInRange(s, m.kind.parent, Up(m, h))))
  }

  lemma {:induction false} MissingBelow(s: State, t: State, d: nat, h: nat)
    requires |t.domains| == |s.domains| && forall c :: 0 <= c <= d && c < |s.domains| ==> t.domains[c] == s.domains[c]
    ensures Missing(t, d, h) == Missing(s, d, h) && PathInRange(t, d, h) == PathInRange(s, d, h)
    decreases d
  {
    if d < |s.domains| {
      var m := s.domains[d];
      if m.kind.Hierarchy? && m.kind.parent < d { MissingBelow(s, t, m.kind.parent, Up(m, h)); }
    }
  }

  /** A mapping can be made if and only if all that is missing is in range and as many virqs are free. */
  lemma {:induction false} FeasibleMeans(s: State, d: nat, h: nat)
    requires |s.bitmap| == |s.descs|
    ensures Feasible(s, d, h) <==> PathInRange(s, d, h) && Missing(s, d, h) <= ClearBits(s.bitmap)
    decreases d
  {
    SomeClear(s.bitmap);
    if d < |s.domains| && Mapped(s, d, h) == 0 && FirstClear(s.bitmap) < |s.bitmap| {
      var v, m := FirstClear(s.bitmap), s.domains[d];
      if m.kind.Hierarchy? && m.kind.parent < d {
        var t, p, g := Place(s, d, h, v), m.kind.parent, Up(m, h);
        ClearBitsUpdate(s.bitmap, v, true);
        FeasibleMeans(t, p, g);
        MissingBelow(s, t, p, g);
      }
    }
  }

  /** The mapping's descriptor points to the parent's mapping of the translated number, or of the same number where
      the domain translates nothing. */
  ghost predicate Parented(t: State, d: nat, h: nat)
    requires d < |t.domains| && t.domains[d].kind.Hierarchy?
  {
    var k, v := t.domains[d].kind, Mapped(t, d, h);
    var g := if h in k.translate then k.translate[h] else h;
    0 < v < |t.descs| && t.descs[v].Some? && t.descs[v].value.parent == Mapped(t, k.parent, g) != 0
  }

  lemma ParentMapped(s: State, d: nat, h: nat)
    requires Base(s) && IntactBelow(s, d + 1) && Feasible(s, d, h) && s.domains[d].kind.Hierarchy?
    ensures var t := Attach(s, d, h); d < |t.domains| && t.domains[d].kind == s.domains[d].kind && Parented(t, d, h)
  {
    hide Base;
    hide IntactBelow;
    hide Store;
    AttachSound(s, d, h, d + 1);
    if Mapped(s, d, h) == 0 {
      BaseBasics(s);
      AttachHierarchy(s, d, h);
      StoreKind(s.domains[d], h, FirstClear(s.bitmap));
    }
  }

  /** Interrupts of one domain whose numbers differ for the parent have different parent virqs; without a translation
      these are any two. */
  lemma ParentsDiffer(s: State, d: nat, h: nat, h': nat)
    requires Inv(s) && d < |s.domains| && s.domains[d].kind.Hierarchy? && Mapped(s, d, h) != 0 && Mapped(s, d, h') != 0
    requires var t := s.domains[d].kind.translate;
             (t == map[] && h != h') || (h in t && h' in t && t[h] != t[h'])
    ensures Parented(s, d, h) && Parented(s, d, h')
    ensures s.descs[Mapped(s, d, h)].value.parent != s.descs[Mapped(s, d, h')].value.parent
  {
    hide Base;
    hide Owned;
    assert Intact(s, d, h) && Intact(s, d, h');
  }

  /** Mapping adds exactly the missing part of the path; every mapping there was keeps its virq. */
  lemma {:induction false} AttachMaps(s: State, d: nat, h: nat, c: nat, g: nat)
    requires Base(s) && IntactBelow(s, d + 1) && Feasible(s, d, h)
    ensures var t := Attach(s, d, h);
            && (Mapped(t, c, g) != 0 <==> Mapped(s, c, g) != 0 || OnPath(s, d, h, c, g))
            && (Mapped(s, c, g) != 0 ==> Mapped(t, c, g) == Mapped(s, c, g))
            && (Mapped(s, c, g) == 0 && Mapped(t, c, g) != 0 ==>
                  Mapped(t, c, g) < MAX_VIRQ && !s.bitmap[Mapped(t, c, g)])
    decreases d
  {
    hide Base;
    hide Store;
    if Mapped(s, d, h) != 0 {
      if OnPath(s, d, h, c, g) { PathMapped(s, d, h, c, g); }
    } else {
      var v, m := FirstClear(s.bitmap), s.domains[d];
      FreshVirq(s);
      if m.kind.Hierarchy? {
        var p, q := m.kind.parent, Up(m, h);
        AttachHierarchy(s, d, h);
        TakenSound(s, v, d + 1);
        TakenSound(s, v, p + 1);
        AttachMaps(Taken(s, v), p, q, c, g);
        PathTaken(s, v, p, q, c, g);
        AttachSound(Taken(s, v), p, q, d + 1);
        var up := Attach(Taken(s, v), p, q);
        PairMapped(up, d, h, v, Mapped(up, p, q), c, g);
      } else {
        AttachRoot(s, d, h);
        PairMapped(s, d, h, v, 0, c, g);
      }
    }
  }

  lemma {:induction false} PathTaken(s: State, v: nat, d: nat, h: nat, c: nat, g: nat)
    requires v < |s.bitmap|
    ensures OnPath(Taken(s, v), d, h, c, g) == OnPath(s, d, h, c, g)
    decreases d
  {
    if d < |s.domains| && s.domains[d].kind.Hierarchy? && s.domains[d].kind.parent < d {
      PathTaken(s, v, s.domains[d].kind.parent, Up(s.domains[d], h), c, g);
    }
  }

  // -------------------------------------------------------------- unmapping

  /** What is left of a descriptor: nothing, unless a handler is still attached to it. */
  function Remains(e: Desc): Option<Desc> {
    if e.action then Some(Desc(INVALID, None, 0, true)) else None
  }

  /** The descriptor forgets its parent before the parent's mapping goes. */
  function Orphan(s: State, v: nat): State
    requires v < |s.descs| && s.descs[v].Some?
  {
    s.(descs := s.descs[v := Some(s.descs[v].value.(parent := 0))])
  }

  lemma OrphanIntact(s: State, d: nat, h: nat, v: nat)
    requires |s.bitmap| == |s.descs| && Intact(s, d, h) && v == Mapped(s, d, h) && s.domains[d].kind.Hierarchy?
    ensures Intact(Orphan(s, v), s.domains[d].kind.parent, Up(s.domains[d], h))
  {
    var m := s.domains[d];
    IntactOver(s, v, s.bitmap[v], Some(s.descs[v].value.(parent := 0)), d, m, m.kind.parent, Up(m, h));
    assert Orphan(s, v) == Over(s, v, s.bitmap[v], Some(s.descs[v].value.(parent := 0)), d, m);
  }

  /** The state with the mapping and those of its parents removed. The sizes, the domains above
      and the descriptors of other mappings are left alone. */
  ghost function Detach(s: State, d: nat, h: nat): (t: State)
    requires |s.bitmap| == |s.descs| && Intact(s, d, h)
    ensures |t.bitmap| == |t.descs| == |s.bitmap| && |t.domains| == |s.domains|
    ensures forall c :: d < c < |s.domains| ==> t.domains[c] == s.domains[c]
    ensures forall v :: 0 <= v < |s.bitmap| && Unused(s, v, d) ==> t.descs[v] == s.descs[v] && t.bitmap[v] == s.bitmap[v]
    decreases d
  {
    var v, m := Mapped(s, d, h), s.domains[d];
    var e := s.descs[v].value;
    var orphan := Orphan(s, v);
    if m.kind.Hierarchy? then
      OrphanIntact(s, d, h, v);
      Over(Detach(orphan, m.kind.parent, Up(m, h)), v, false, Remains(e), d, Erase(m, h))
    else Over(orphan, v, false, Remains(e), d, Erase(m, h))
  }

  lemma OrphanOver(s: State, v: nat, bit: bool, e: Option<Desc>, d: nat, m: Domain, w: nat)
    requires |s.bitmap| == |s.descs| && v < |s.bitmap| && w < |s.bitmap| && w != v && d < |s.domains| && s.descs[w].Some?
    ensures Orphan(Over(s, v, bit, e, d, m), w) == Over(Orphan(s, w), v, bit, e, d, m)
  {
    var a, b := Orphan(Over(s, v, bit, e, d, m), w), Over(Orphan(s, w), v, bit, e, d, m);
    assert a.descs == b.descs;
  }

  lemma OverOver(s: State, v: nat, bit: bool, e: Option<Desc>, d: nat, m: Domain, w: nat, b: bool, f: Option<Desc>, c: nat, n: Domain)
    requires |s.bitmap| == |s.descs| && v < |s.bitmap| && w < |s.bitmap| && w != v && d < |s.domains| && c < |s.domains| && c != d
    ensures Over(Over(s, v, bit, e, d, m), w, b, f, c, n) == Over(Over(s, w, b, f, c, n), v, bit, e, d, m)
  {
    var x, y := Over(Over(s, v, bit, e, d, m), w, b, f, c, n), Over(Over(s, w, b, f, c, n), v, bit, e, d, m);
    assert x.bitmap == y.bitmap && x.descs == y.descs && x.domains == y.domains;
  }

  /** Unmapping below commutes with a change to a domain above and a virq of that domain. */
  lemma {:induction false} DetachOver(s: State, v: nat, bit: bool, e: Option<Desc>, d: nat, m: Domain, c: nat, h: nat)
    requires |s.bitmap| == |s.descs| && v < |s.bitmap| && c < d < |s.domains|
    requires Intact(s, c, h) && Unused(s, v, c)
    requires e.None? || e.value.domain.None? || e.value.domain.value > c
    ensures Intact(Over(s, v, bit, e, d, m), c, h)
    ensures Detach(Over(s, v, bit, e, d, m), c, h) == Over(Detach(s, c, h), v, bit, e, d, m)
    decreases c
  {
    var t := Over(s, v, bit, e, d, m);
    IntactOver(s, v, bit, e, d, m, c, h);
    var w, n := Mapped(s, c, h), s.domains[c];
    var f := Remains(s.descs[w].value);
    OrphanOver(s, v, bit, e, d, m, w);
    var orphan := Orphan(s, w);
    if n.kind.Hierarchy? {
      var p, g := n.kind.parent, Up(n, h);
      OrphanIntact(s, c, h, w);
      OrphanIntact(t, c, h, w);
      DetachOver(orphan, v, bit, e, d, m, p, g);
      OverOver(Detach(orphan, p, g), v, bit, e, d, m, w, false, f, c, Erase(n, h));
    } else {
      OverOver(orphan, v, bit, e, d, m, w, false, f, c, Erase(n, h));
    }
  }

  /** Removing a hierarchy mapping is removing its parent's, then its own. */
  lemma DetachHierarchy(s: State, d: nat, h: nat)
    requires |s.bitmap| == |s.descs| && Intact(s, d, h) && s.domains[d].kind.Hierarchy?
    ensures var v, m := Mapped(s, d, h), s.domains[d];
            Detach(s, d, h) == Over(Detach(s, m.kind.parent, Up(m, h)), v, false, Remains(s.descs[v].value), d, Erase(m, h))
  {
    var v, m := Mapped(s, d, h), s.domains[d];
    var p, g := m.kind.parent, Up(m, h);
    var e := s.descs[v].value;
    var orphan := Orphan(s, v);
    OverNothing(s, v, d);
    OverTwice(s, v, s.bitmap[v], s.descs[v], d, m, s.bitmap[v], Some(e.(parent := 0)), m);
    assert orphan == Over(s, v, s.bitmap[v], Some(e.(parent := 0)), d, m);
    DetachOver(s, v, s.bitmap[v], Some(e.(parent := 0)), d, m, p, g);
    OrphanIntact(s, d, h, v);
    OverTwice(Detach(s, p, g), v, s.bitmap[v], Some(e.(parent := 0)), d, m, false, Remains(e), Erase(m, h));
  }

  lemma OverTwice(s: State, v: nat, bit: bool, e: Option<Desc>, d: nat, m: Domain, b: bool, f: Option<Desc>, n: Domain)
    requires |s.bitmap| == |s.descs| && v < |s.bitmap| && d < |s.domains|
    ensures Over(Over(s, v, bit, e, d, m), v, b, f, d, n) == Over(s, v, b, f, d, n)
  {
    var x, y := Over(Over(s, v, bit, e, d, m), v, b, f, d, n), Over(s, v, b, f, d, n);
    assert x.bitmap == y.bitmap && x.descs == y.descs && x.domains == y.domains;
  }

  lemma OverNothing(s: State, v: nat, d: nat)
    requires v < |s.bitmap| && v < |s.descs| && d < |s.domains|
    ensures Over(s, v, s.bitmap[v], s.descs[v], d, s.domains[d]) == s
  {
  }

  lemma DetachRoot(s: State, d: nat, h: nat)
    requires |s.bitmap| == |s.descs| && Intact(s, d, h) && !s.domains[d].kind.Hierarchy?
    ensures var v, m := Mapped(s, d, h), s.domains[d];
            Detach(s, d, h) == Over(s, v, false, Remains(s.descs[v].value), d, Erase(m, h))
  {
    var v, m := Mapped(s, d, h), s.domains[d];
    var a, b := Detach(s, d, h), Over(s, v, false, Remains(s.descs[v].value), d, Erase(m, h));
    assert a.descs == b.descs;
  }

  /** Unmapping removes exactly the path; every other mapping keeps its virq. */
  lemma {:induction false} DetachMaps(s: State, d: nat, h: nat, c: nat, g: nat)
    requires |s.bitmap| == |s.descs| && DomainsOk(s) && Intact(s, d, h)
    ensures Mapped(Detach(s, d, h), c, g) == if OnPath(s, d, h, c, g) then 0 else Mapped(s, c, g)
    decreases d
  {
    var v, m := Mapped(s, d, h), s.domains[d];
    if c == d { EraseLookup(m, h, g); }
    if m.kind.Hierarchy? {
      DetachHierarchy(s, d, h);
      DetachMaps(s, m.kind.parent, Up(m, h), c, g);
      if c >= d { PathBelow(s, m.kind.parent, Up(m, h), c, g); }
    } else {
      DetachRoot(s, d, h);
    }
  }

  lemma {:induction false} PathBelow(s: State, d: nat, h: nat, c: nat, g: nat)
    ensures OnPath(s, d, h, c, g) ==> c <= d
    decreases d
  {
    if d < |s.domains| && s.domains[d].kind.Hierarchy? && s.domains[d].kind.parent < d {
      PathBelow(s, s.domains[d].kind.parent, Up(s.domains[d], h), c, g);
    }
  }

  // -------------------------------------------------------------- a lost reservation

  /** The state without the reservation at the root of the path. */
  function Unmark(s: State, d: nat, h: nat): (t: State)
    ensures t.bitmap == s.bitmap && t.descs == s.descs && |t.domains| == |s.domains|
    ensures forall c :: d < c < |s.domains| ==> t.domains[c] == s.domains[c]
    decreases d
  {
    if d >= |s.domains| then s
    else
      var m := s.domains[d];
      if m.kind.Tree? then s.(domains := s.domains[d := m.(tree := m.tree - {h})])
      else if m.kind.Hierarchy? && m.kind.parent < d then Unmark(s, m.kind.parent, Up(m, h))
      else s
  }

  lemma {:induction false} UnmarkOver(s: State, v: nat, bit: bool, e: Option<Desc>, d: nat, m: Domain, c: nat, h: nat)
    requires |s.bitmap| == |s.descs| && v < |s.bitmap| && c < d < |s.domains|
    ensures Unmark(Over(s, v, bit, e, d, m), c, h) == Over(Unmark(s, c, h), v, bit, e, d, m)
    decreases c
  {
    var n := s.domains[c];
    if n.kind.Hierarchy? && n.kind.parent < c {
      UnmarkOver(s, v, bit, e, d, m, n.kind.parent, Up(n, h));
    } else {
      var x, y := Unmark(Over(s, v, bit, e, d, m), c, h), Over(Unmark(s, c, h), v, bit, e, d, m);
      assert x.domains == y.domains;
    }
  }

  /** Losing a reservation changes no mapping. */
  lemma {:induction false} UnmarkSound(s: State, d: nat, h: nat, k: nat)
    requires Base(s) && IntactBelow(s, k) && RootUnmapped(s, d, h)
    ensures var t := Unmark(s, d, h);
            Base(t) && IntactBelow(t, k) && (Owned(s) ==> Owned(t)) && forall c: nat, g: nat :: Mapped(t, c, g) == Mapped(s, c, g)
    decreases d
  {
    if d < |s.domains| {
      var m, t := s.domains[d], Unmark(s, d, h);
      if m.kind.Tree? {
        assert forall c: nat, g: nat :: Mapped(t, c, g) == Mapped(s, c, g);
        forall c: nat, g: nat | c < k && Mapped(t, c, g) != 0 ensures Intact(t, c, g) {
          SameMapsIntact(s, t, c, g);
        }
      } else if m.kind.Hierarchy? && m.kind.parent < d {
        UnmarkSound(s, m.kind.parent, Up(m, h), k);
      }
    }
  }

  lemma {:induction false} MoreDomainsIntact(s: State, t: State, c: nat, g: nat)
    requires Intact(s, c, g) && t.descs == s.descs && |t.domains| >= |s.domains| && t.domains[..|s.domains|] == s.domains
    ensures Intact(t, c, g)
    decreases c
  {
    assert forall i :: 0 <= i < |s.domains| ==> t.domains[..|s.domains|][i] == t.domains[i];
    var n := s.domains[c];
    if n.kind.Hierarchy? { MoreDomainsIntact(s, t, n.kind.parent, Up(n, g)); }
  }

  /** The path ends in a tree domain where the hardware interrupt is not mapped, or in no tree. */
  predicate RootUnmapped(s: State, d: nat, h: nat)
    decreases d
  {
    d < |s.domains| ==>
      (s.domains[d].kind.Tree? ==> Mapped(s, d, h) == 0) &&
      (s.domains[d].kind.Hierarchy? && s.domains[d].kind.parent < d ==> RootUnmapped(s, s.domains[d].kind.parent, Up(s.domains[d], h)))
  }

  lemma {:induction false} SameMapsIntact(s: State, t: State, c: nat, g: nat)
    requires Intact(s, c, g) && t.descs == s.descs && |t.domains| == |s.domains|
    requires forall i: nat, j: nat :: Mapped(t, i, j) == Mapped(s, i, j)
    requires forall i :: 0 <= i < |s.domains| ==> t.domains[i].kind == s.domains[i].kind
    ensures Intact(t, c, g)
    decreases c
  {
    var n := s.domains[c];
    if n.kind.Hierarchy? { SameMapsIntact(s, t, n.kind.parent, Up(n, g)); }
  }

  // -------------------------------------------------------------- round trip

  /** Neither the hardware interrupt nor any parent is mapped, and none is reserved. */
  predicate Clean(s: State, d: nat, h: nat)
    decreases d
  {
    d < |s.domains| && Mapped(s, d, h) == 0 &&
    var m := s.domains[d];
    && (m.kind.Tree? ==> h !in m.tree)
    && (m.kind.Hierarchy? && m.kind.parent < d ==> Clean(s, m.kind.parent, Up(m, h)))
  }

  lemma EraseStored(m: Domain, d: nat, h: nat, v: nat)
    requires DomainOk(m, d) && InRange(m, h) && Lookup(m, h) == 0 && (m.kind.Tree? ==> h !in m.tree)
    ensures Erase(Store(m, h, v), h) == m
  {
    var n := Erase(Store(m, h, v), h);
    if m.kind.Tree? {
      assert n.tree == m.tree;
    } else {
      assert n.linear == m.linear && n.revmap == m.revmap;
    }
  }

  lemma DomainAt(s: State, d: nat)
    requires Base(s) && d < |s.domains|
    ensures DomainOk(s.domains[d], d) && |s.bitmap| == |s.descs|
  {
  }

  lemma BelowLess(s: State, k: nat, j: nat)
    requires IntactBelow(s, k) && j <= k
    ensures IntactBelow(s, j)
  {
  }

  lemma StoreKind(m: Domain, h: nat, v: nat)
    ensures Store(m, h, v).kind == m.kind
  {
  }

  // -------------------------------------------------------------- what disposal keeps

  /** No handler is attached along the path. */
  ghost predicate Quiet(s: State, d: nat, h: nat) {
    forall c: nat, g: nat :: OnPath(s, d, h, c, g) && Mapped(s, c, g) < |s.descs| && s.descs[Mapped(s, c, g)].Some?
      ==> !s.descs[Mapped(s, c, g)].value.action
  }

  /** Another mapping hangs from the path. */
  ghost predicate Hangs(s: State, d: nat, h: nat, c: nat, g: nat) {
    && c < |s.domains| && Mapped(s, c, g) != 0 && !OnPath(s, d, h, c, g)
    && s.domains[c].kind.Hierarchy? && OnPath(s, d, h, s.domains[c].kind.parent, Up(s.domains[c], g))
  }

  ghost predicate Shared(s: State, d: nat, h: nat) {
    exists c: nat, g: nat :: Hangs(s, d, h, c, g)
  }

  /** The virq of a mapping on the path. */
  ghost predicate PathVirq(s: State, d: nat, h: nat, v: nat) {
    exists c: nat, g: nat :: OnPath(s, d, h, c, g) && Mapped(s, c, g) == v
  }

  /** The tables after disposal: the path's virqs are free and their descriptors gone, unless a handler
      held one; all others are as they were. */
  lemma {:induction false} DetachTables(s: State, d: nat, h: nat, v: nat)
    requires |s.bitmap| == |s.descs| && Intact(s, d, h) && v < |s.bitmap|
    ensures var t := Detach(s, d, h);
            && (!PathVirq(s, d, h, v) ==> t.bitmap[v] == s.bitmap[v] && t.descs[v] == s.descs[v])
            && (PathVirq(s, d, h, v) ==> !t.bitmap[v] && s.descs[v].Some? && t.descs[v] == Remains(s.descs[v].value))
    decreases d
  {
    var m, w := s.domains[d], Mapped(s, d, h);
    assert OnPath(s, d, h, d, h);
    if m.kind.Hierarchy? {
      var p, q := m.kind.parent, Up(m, h);
      DetachHierarchy(s, d, h);
      DetachTables(s, p, q, v);
      PathVirqUp(s, d, h, v);
    } else {
      DetachRoot(s, d, h);
      assert forall c: nat, g: nat :: OnPath(s, d, h, c, g) ==> c == d && g == h;
    }
  }

  lemma PathVirqUp(s: State, d: nat, h: nat, v: nat)
    requires d < |s.domains| && s.domains[d].kind.Hierarchy? && s.domains[d].kind.parent < d
    ensures PathVirq(s, d, h, v) <==> v == Mapped(s, d, h) || PathVirq(s, s.domains[d].kind.parent, Up(s.domains[d], h), v)
  {
    var p, q := s.domains[d].kind.parent, Up(s.domains[d], h);
    assert OnPath(s, d, h, d, h);
    if PathVirq(s, p, q, v) {
      var c: nat, g: nat :| OnPath(s, p, q, c, g) && Mapped(s, c, g) == v;
      assert OnPath(s, d, h, c, g);
    }
  }

  lemma {:induction false} DetachDomains(s: State, d: nat, h: nat)
    requires |s.bitmap| == |s.descs| && DomainsOk(s) && Intact(s, d, h)
    ensures DomainsOk(Detach(s, d, h))
    ensures forall c :: 0 <= c < |s.domains| ==> Detach(s, d, h).domains[c].kind == s.domains[c].kind
    decreases d
  {
    var m := s.domains[d];
    if m.kind.Hierarchy? {
      DetachHierarchy(s, d, h);
      DetachDomains(s, m.kind.parent, Up(m, h));
    } else {
      DetachRoot(s, d, h);
    }
  }

  /** The path's virqs are of the path alone. */
  lemma OffPath(s: State, d: nat, h: nat, c: nat, g: nat)
    requires Inv(s) && Intact(s, d, h) && Mapped(s, c, g) != 0 && !OnPath(s, d, h, c, g)
    ensures !PathVirq(s, d, h, Mapped(s, c, g))
  {
    if PathVirq(s, d, h, Mapped(s, c, g)) {
      var c': nat, g': nat :| OnPath(s, d, h, c', g') && Mapped(s, c', g') == Mapped(s, c, g);
      DistinctVirqs(s, c, g, c', g');
    }
  }

  lemma DetachBase(s: State, d: nat, h: nat)
    requires Inv(s) && Intact(s, d, h) && Quiet(s, d, h)
    ensures Base(Detach(s, d, h)) && Owned(Detach(s, d, h))
  {
    var t := Detach(s, d, h);
    DetachDomains(s, d, h);
    forall v: nat | v < MAX_VIRQ ensures (t.descs[v].Some? ==> t.bitmap[v]) && (PathVirq(s, d, h, v) ==> t.descs[v].None? && v != 0) {
      DetachTables(s, d, h, v);
      if PathVirq(s, d, h, v) {
        var c: nat, g: nat :| OnPath(s, d, h, c, g) && Mapped(s, c, g) == v;
        PathMapped(s, d, h, c, g);
      }
    }
    DetachTables(s, d, h, 0);
    forall c: nat, g: nat | Mapped(t, c, g) != 0 ensures Mapped(t, c, g) < MAX_VIRQ && t.descs[Mapped(t, c, g)].Some? {
      DetachMaps(s, d, h, c, g);
      OffPath(s, d, h, c, g);
      DetachTables(s, d, h, Mapped(s, c, g));
    }
    forall v: nat | v < |t.descs| && t.descs[v].Some? && t.descs[v].value.domain.Some?
      ensures Mapped(t, t.descs[v].value.domain.value, t.descs[v].value.hwirq) == v
    {
      DetachTables(s, d, h, v);
      var c, g := s.descs[v].value.domain.value, s.descs[v].value.hwirq;
      DetachMaps(s, d, h, c, g);
    }
  }

  lemma {:induction false} IntactRest(s: State, d: nat, h: nat, c: nat, g: nat)
    requires Inv(s) && Intact(s, d, h) && !Shared(s, d, h) && Mapped(s, c, g) != 0 && !OnPath(s, d, h, c, g)
    ensures Intact(Detach(s, d, h), c, g)
    decreases c
  {
    assert Intact(s, c, g);
    DetachDomains(s, d, h);
    DetachMaps(s, d, h, c, g);
    OffPath(s, d, h, c, g);
    DetachTables(s, d, h, Mapped(s, c, g));
    var n := s.domains[c];
    if n.kind.Hierarchy? {
      var p, q := n.kind.parent, Up(n, g);
      assert !Hangs(s, d, h, c, g);
      assert Intact(s, p, q);
      DetachMaps(s, d, h, p, q);
      IntactRest(s, d, h, p, q);
    }
  }

  /** Disposal keeps the invariant if and only if no handler is attached along the path and no
      other mapping hangs from it. */
  lemma DetachKeeps(s: State, d: nat, h: nat)
    requires Inv(s) && Mapped(s, d, h) != 0
    ensures Intact(s, d, h) && (Inv(Detach(s, d, h)) <==> Quiet(s, d, h) && !Shared(s, d, h))
  {
    assert Intact(s, d, h);
    var t := Detach(s, d, h);
    if !Quiet(s, d, h) {
      HandlerStays(s, d, h);
    } else if Shared(s, d, h) {
      var c: nat, g: nat :| Hangs(s, d, h, c, g);
      Stranded(s, d, h, c, g);
    } else {
      DetachBase(s, d, h);
      forall c: nat, g: nat | Mapped(t, c, g) != 0 ensures Intact(t, c, g) {
        DetachMaps(s, d, h, c, g);
        IntactRest(s, d, h, c, g);
      }
    }
  }

  /** With a handler attached, the virq is free again while its descriptor remains. */
  lemma HandlerStays(s: State, d: nat, h: nat)
    requires Inv(s) && Intact(s, d, h) && !Quiet(s, d, h)
    ensures !TablesOk(Detach(s, d, h))
  {
    var c: nat, g: nat :| OnPath(s, d, h, c, g) && Mapped(s, c, g) < |s.descs| && s.descs[Mapped(s, c, g)].Some?
                          && s.descs[Mapped(s, c, g)].value.action;
    DetachTables(s, d, h, Mapped(s, c, g));
  }

  /** A mapping that shared a parent with the disposed one is left without it. */
  lemma Stranded(s: State, d: nat, h: nat, c: nat, g: nat)
    requires Inv(s) && Intact(s, d, h) && Hangs(s, d, h, c, g)
    ensures Mapped(Detach(s, d, h), c, g) != 0 && !Intact(Detach(s, d, h), c, g)
  {
    DetachMaps(s, d, h, c, g);
    DetachMaps(s, d, h, s.domains[c].kind.parent, Up(s.domains[c], g));
    DetachDomains(s, d, h);
  }

  // -------------------------------------------------------------- inside an operation

  /** With the child's half in place, the domains below are as they were. */
  lemma PlaceSound(s: State, d: nat, h: nat, v: nat)
    requires Base(s) && IntactBelow(s, d + 1) && d < |s.domains| && 0 < v < MAX_VIRQ && s.descs[v].None?
    requires Mapped(s, d, h) == 0 && InRange(s.domains[d], h)
    ensures Base(Place(s, d, h, v)) && IntactBelow(Place(s, d, h, v), d)
  {
    hide Store;
    var t, m := Place(s, d, h, v), s.domains[d];
    forall c: nat, g: nat ensures Mapped(t, c, g) == if c == d && g == h then v else Mapped(s, c, g) {
      if c == d { StoreLookup(m, h, v, g); }
    }
    StoreOk(m, d, h, v);
    forall c: nat, g: nat | c < d && Mapped(t, c, g) != 0 ensures Intact(t, c, g) {
      IntactOver(s, v, true, Some(BLANK), d, Store(m, h, v), c, g);
    }
    assert DomainsOk(t) && TablesOk(t) && Pointers(t);
  }

  lemma {:induction false} PathOver(s: State, v: nat, bit: bool, e: Option<Desc>, d: nat, m: Domain, c: nat, h: nat)
    requires v < |s.bitmap| && v < |s.descs| && c < d < |s.domains|
    ensures Clean(Over(s, v, bit, e, d, m), c, h) == Clean(s, c, h)
    ensures RootUnmapped(Over(s, v, bit, e, d, m), c, h) == RootUnmapped(s, c, h)
    decreases c
  {
    var n := s.domains[c];
    if n.kind.Hierarchy? && n.kind.parent < c { PathOver(s, v, bit, e, d, m, n.kind.parent, Up(n, h)); }
  }

  /** Undoing the child's half undoes it exactly, whatever happened to the reservation at the root. */
  lemma RollbackExact(s: State, d: nat, h: nat, v: nat)
    requires Base(s) && d < |s.domains| && 0 < v < MAX_VIRQ && s.descs[v].None? && !s.bitmap[v]
    requires Mapped(s, d, h) == 0 && InRange(s.domains[d], h) && s.domains[d].kind.Hierarchy?
    ensures var m, p, g := s.domains[d], s.domains[d].kind.parent, Up(s.domains[d], h);
            && Over(Place(s, d, h, v), v, false, None, d, Erase(Store(m, h, v), h)) == s
            && Over(Unmark(Place(s, d, h, v), p, g), v, false, None, d, Erase(Store(m, h, v), h)) == Unmark(s, d, h)
  {
    hide Store;
    hide Erase;
    var m, p, g := s.domains[d], s.domains[d].kind.parent, Up(s.domains[d], h);
    DomainAt(s, d);
    EraseStored(m, d, h, v);
    OverTwice(s, v, true, Some(BLANK), d, Store(m, h, v), false, None, m);
    OverNothing(s, v, d);
    var u := Unmark(s, p, g);
    UnmarkOver(s, v, true, Some(BLANK), d, Store(m, h, v), p, g);
    OverTwice(u, v, true, Some(BLANK), d, Store(m, h, v), false, None, m);
    OverNothing(u, v, d);
  }

  lemma EraseAny(m: Domain, d: nat, h: nat, v: nat)
    requires DomainOk(m, d) && InRange(m, h) && Lookup(m, h) == 0
    ensures Erase(Store(m, h, v), h) == if m.kind.Tree? then m.(tree := m.tree - {h}) else m
  {
    if m.kind.Tree? {
      assert m.tree[h := Bound(v)] - {h} == m.tree - {h};
    } else {
      EraseStored(m, d, h, v);
    }
  }

  /** A new mapping of a domain without parent, disposed of at once, leaves at most a lost reservation. */
  lemma RefusedRoot(s: State, d: nat, h: nat)
    requires Base(s) && IntactBelow(s, d + 1) && Feasible(s, d, h) && Mapped(s, d, h) == 0
    requires !s.domains[d].kind.Hierarchy?
    ensures var t := Attach(s, d, h); Base(t) && Intact(t, d, h) && Detach(t, d, h) == Unmark(s, d, h)
  {
    hide Base;
    hide IntactBelow;
    hide Store;
    hide Erase;
    hide Detach;
    DomainAt(s, d);
    AttachSound(s, d, h, d + 1);
    var v, m, t := FirstClear(s.bitmap), s.domains[d], Attach(s, d, h);
    FreshVirq(s);
    AttachRoot(s, d, h);
    PairMapped(s, d, h, v, 0, d, h);
    StoreKind(m, h, v);
    DetachRoot(t, d, h);
    EraseAny(m, d, h, v);
    var n := Erase(Store(m, h, v), h);
    OverTwice(s, v, true, Some(Desc(h, Some(d), 0, false)), d, Store(m, h, v), false, None, n);
    OverNothing(Unmark(s, d, h), v, d);
    OverTwice(s, v, s.bitmap[v], s.descs[v], d, s.domains[d], false, None, n);
    assert Unmark(s, d, h).domains == s.domains[d := n];
  }

  // -------------------------------------------------------------- a refused mapping

  /** What refusing a new mapping leaves: from the first member of the path that was mapped before, the path
      is gone, and so is a reservation at its root. */
  ghost function Purge(s: State, d: nat, h: nat): (t: State)
    requires |s.bitmap| == |s.descs| && DomainsOk(s) && IntactBelow(s, d + 1) && d < |s.domains|
    ensures |t.bitmap| == |t.descs| == |s.bitmap| && |t.domains| == |s.domains|
    ensures forall c :: d < c < |s.domains| ==> t.domains[c] == s.domains[c]
    ensures forall v :: 0 <= v < |s.bitmap| && Unused(s, v, d) ==> t.descs[v] == s.descs[v] && t.bitmap[v] == s.bitmap[v]
    decreases d
  {
    if Mapped(s, d, h) != 0 then Detach(s, d, h)
    else if s.domains[d].kind.Hierarchy? then Purge(s, s.domains[d].kind.parent, Up(s.domains[d], h))
    else Unmark(s, d, h)
  }

  lemma OverSound(s: State, v: nat, bit: bool, e: Option<Desc>, d: nat, m: Domain, k: nat)
    requires |s.bitmap| == |s.descs| && v < |s.bitmap| && k <= d < |s.domains| && IntactBelow(s, k) && Unused(s, v, k)
    ensures IntactBelow(Over(s, v, bit, e, d, m), k)
  {
    forall c: nat, g: nat | c < k && Mapped(Over(s, v, bit, e, d, m), c, g) != 0 ensures Intact(Over(s, v, bit, e, d, m), c, g) {
      IntactOver(s, v, bit, e, d, m, c, g);
    }
  }

  /** Purging below commutes with a change to a domain above and a virq of that domain. */
  lemma {:induction false} PurgeOver(s: State, v: nat, bit: bool, e: Option<Desc>, d: nat, m: Domain, c: nat, h: nat)
    requires |s.bitmap| == |s.descs| && v < |s.bitmap| && c < d < |s.domains| && DomainsOk(s) && DomainOk(m, d)
    requires IntactBelow(s, c + 1) && Unused(s, v, d) && (e.None? || e.value.domain.None? || e.value.domain.value > c)
    ensures DomainsOk(Over(s, v, bit, e, d, m)) && IntactBelow(Over(s, v, bit, e, d, m), c + 1)
    ensures Purge(Over(s, v, bit, e, d, m), c, h) == Over(Purge(s, c, h), v, bit, e, d, m)
    decreases c
  {
    OverSound(s, v, bit, e, d, m, c + 1);
    var n := s.domains[c];
    if Mapped(s, c, h) != 0 {
      DetachOver(s, v, bit, e, d, m, c, h);
    } else if n.kind.Hierarchy? {
      PurgeOver(s, v, bit, e, d, m, n.kind.parent, Up(n, h));
    } else {
      UnmarkOver(s, v, bit, e, d, m, c, h);
    }
  }

  /** Disposing at once of a new mapping is purging its path. */
  lemma {:induction false} AttachDetach(s: State, d: nat, h: nat)
    requires Base(s) && IntactBelow(s, d + 1) && Feasible(s, d, h)
    ensures var t := Attach(s, d, h); Base(t) && Intact(t, d, h) && Detach(t, d, h) == Purge(s, d, h)
    decreases d
  {
    hide Base;
    hide IntactBelow;
    hide Store;
    hide Erase;
    hide Detach;
    DomainAt(s, d);
    BaseBasics(s);
    AttachSound(s, d, h, d + 1);
    if Mapped(s, d, h) == 0 {
      if s.domains[d].kind.Hierarchy? {
        RefusedChild(s, d, h);
      } else {
        RefusedRoot(s, d, h);
      }
    }
  }

  lemma BaseBasics(s: State)
    requires Base(s)
    ensures DomainsOk(s) && |s.bitmap| == |s.descs| == MAX_VIRQ
  {
  }

  lemma RefusedChild(s: State, d: nat, h: nat)
    requires Base(s) && IntactBelow(s, d + 1) && Feasible(s, d, h) && Mapped(s, d, h) == 0
    requires s.domains[d].kind.Hierarchy?
    ensures var t := Attach(s, d, h);
            Base(t) && Intact(t, d, h) && Detach(t, d, h) == Purge(s, s.domains[d].kind.parent, Up(s.domains[d], h))
    decreases d, 0
  {
    hide Base;
    hide IntactBelow;
    hide Store;
    hide Erase;
    hide Detach;
    hide Purge;
    hide Attach;
    hide Intact;
    BaseBasics(s);
    DomainAt(s, d);
    AttachSound(s, d, h, d + 1);
    var v, m, t := FirstClear(s.bitmap), s.domains[d], Attach(s, d, h);
    var p, g := m.kind.parent, Up(m, h);
    FreshVirq(s);
    AttachHierarchy(s, d, h);
    var taken := Taken(s, v);
    TakenSound(s, v, d + 1);
    BelowLess(taken, d + 1, p + 1);
    BelowLess(s, d + 1, p + 1);
    AttachDetach(taken, p, g);
    var up := Attach(taken, p, g);
    var e := Desc(h, Some(d), Mapped(up, p, g), false);
    DetachOver(up, v, true, Some(e), d, Store(m, h, v), p, g);
    PairMapped(up, d, h, v, Mapped(up, p, g), d, h);
    StoreKind(m, h, v);
    DetachHierarchy(t, d, h);
    EraseStored(m, d, h, v);
    var rest := Purge(s, p, g);
    TakenIsOver(s, v, d);
    PurgeOver(s, v, true, None, d, m, p, g);
    OverTwice(Over(rest, v, true, None, d, m), v, true, Some(e), d, Store(m, h, v), false, None, m);
    OverTwice(rest, v, true, None, d, m, false, None, m);
    OverNothing(rest, v, d);
  }

  lemma TakenIsOver(s: State, v: nat, d: nat)
    requires v < |s.bitmap| && v < |s.descs| && s.descs[v].None? && d < |s.domains|
    ensures Taken(s, v) == Over(s, v, true, None, d, s.domains[d])
  {
    var t := Over(s, v, true, None, d, s.domains[d]);
    assert t.descs == s.descs && t.domains == s.domains;
  }

  /** Purging changes nothing if and only if the path is clean. */
  lemma {:induction false} PurgeNothing(s: State, d: nat, h: nat)
    requires |s.bitmap| == |s.descs| && DomainsOk(s) && IntactBelow(s, d + 1) && d < |s.domains|
    ensures Purge(s, d, h) == s <==> Clean(s, d, h)
    decreases d
  {
    hide Detach;
    var m := s.domains[d];
    if Mapped(s, d, h) != 0 {
      DetachMaps(s, d, h, d, h);
    } else if m.kind.Hierarchy? {
      PurgeNothing(s, m.kind.parent, Up(m, h));
    } else if m.kind.Tree? {
      assert h !in m.tree ==> m.tree - {h} == m.tree;
      assert Unmark(s, d, h).domains[d].tree == m.tree - {h};
    }
  }

  /** Mapping followed by disposal is the identity if and only if the path was clean: a parent
      that was mapped before is disposed of too, and a reservation is not put back. */
  lemma RoundTrip(s: State, d: nat, h: nat)
    requires Inv(s) && Feasible(s, d, h)
    ensures var t := Attach(s, d, h); Intact(t, d, h) && (Detach(t, d, h) == s <==> Clean(s, d, h))
  {
    AttachDetach(s, d, h);
    PurgeNothing(s, d, h);
  }

  lemma {:induction false} PurgeDomains(s: State, d: nat, h: nat)
    requires |s.bitmap| == |s.descs| && DomainsOk(s) && IntactBelow(s, d + 1) && d < |s.domains|
    ensures DomainsOk(Purge(s, d, h))
    decreases d
  {
    var m := s.domains[d];
    if Mapped(s, d, h) != 0 {
      DetachDomains(s, d, h);
    } else if m.kind.Hierarchy? {
      PurgeDomains(s, m.kind.parent, Up(m, h));
    }
  }

  /** From `(d, h)` up to `(c, g)`, and there too, nothing is mapped. */
  predicate OpenUpTo(s: State, d: nat, h: nat, c: nat, g: nat)
    decreases d
  {
    d < |s.domains| && Mapped(s, d, h) == 0 &&
    ((c == d && g == h) ||
     (s.domains[d].kind.Hierarchy? && s.domains[d].kind.parent < d &&
      OpenUpTo(s, s.domains[d].kind.parent, Up(s.domains[d], h), c, g)))
  }

  /** Purging from a member of an open stretch of the path is purging the path. */
  lemma {:induction false} PurgeOpen(s: State, d: nat, h: nat, c: nat, g: nat)
    requires |s.bitmap| == |s.descs| && DomainsOk(s) && IntactBelow(s, d + 1) && OpenUpTo(s, d, h, c, g)
    ensures c <= d && OnPath(s, d, h, c, g) && IntactBelow(s, c + 1) && Purge(s, c, g) == Purge(s, d, h)
    decreases d
  {
    if !(c == d && g == h) { PurgeOpen(s, s.domains[d].kind.parent, Up(s.domains[d], h), c, g); }
  }

  lemma {:induction false} OpenOver(s: State, v: nat, bit: bool, e: Option<Desc>, d: nat, m: Domain, i: nat, h: nat, c: nat, g: nat)
    requires v < |s.bitmap| && v < |s.descs| && i < d < |s.domains|
    ensures OpenUpTo(Over(s, v, bit, e, d, m), i, h, c, g) == OpenUpTo(s, i, h, c, g)
    decreases i
  {
    var n := s.domains[i];
    if n.kind.Hierarchy? && n.kind.parent < i { OpenOver(s, v, bit, e, d, m, n.kind.parent, Up(n, h), c, g); }
  }

  /** Undoing the child's half after a refusal further up leaves the purged path. */
  lemma RollbackPurge(s: State, d: nat, h: nat, v: nat, c: nat, g: nat)
    requires Base(s) && IntactBelow(s, d + 1) && d < |s.domains| && 0 < v < MAX_VIRQ && s.descs[v].None? && !s.bitmap[v]
    requires Mapped(s, d, h) == 0 && InRange(s.domains[d], h) && s.domains[d].kind.Hierarchy?
    requires OpenUpTo(Place(s, d, h, v), s.domains[d].kind.parent, Up(s.domains[d], h), c, g)
    ensures var m, p, q, t := s.domains[d], s.domains[d].kind.parent, Up(s.domains[d], h), Place(s, d, h, v);
            && DomainsOk(t) && IntactBelow(t, p + 1) && OpenUpTo(s, d, h, c, g)
            && Over(Purge(t, p, q), v, false, None, d, Erase(Store(m, h, v), h)) == Purge(s, d, h)
  {
    hide Store;
    hide Erase;
    hide Detach;
    hide IntactBelow;
    var m, p, q := s.domains[d], s.domains[d].kind.parent, Up(s.domains[d], h);
    DomainAt(s, d);
    BelowLess(s, d + 1, p + 1);
    StoreOk(m, d, h, v);
    EraseStored(m, d, h, v);
    OpenOver(s, v, true, Some(BLANK), d, Store(m, h, v), p, q, c, g);
    PurgeOver(s, v, true, Some(BLANK), d, Store(m, h, v), p, q);
    var rest := Purge(s, p, q);
    OverTwice(rest, v, true, Some(BLANK), d, Store(m, h, v), false, None, m);
    OverNothing(rest, v, d);
  }

  // -------------------------------------------------------------- handlers

  /** A handler attached to a descriptor, or the last one detached. */
  function WithHandler(s: State, v: nat, on: bool): State
    requires v < |s.descs| && s.descs[v].Some?
  {
    s.(descs := s.descs[v := Some(s.descs[v].value.(action := on))])
  }

  lemma {:induction false} HandlerIntact(s: State, v: nat, on: bool, c: nat, g: nat)
    requires v < |s.descs| && s.descs[v].Some? && Intact(s, c, g)
    ensures Intact(WithHandler(s, v, on), c, g)
    decreases c
  {
    var n := s.domains[c];
    if n.kind.Hierarchy? { HandlerIntact(s, v, on, n.kind.parent, Up(n, g)); }
  }

  /** Attaching and detaching handlers keeps the invariant. */
  lemma HandlerKeeps(s: State, v: nat, on: bool)
    requires Inv(s) && v < MAX_VIRQ && s.descs[v].Some?
    ensures Inv(WithHandler(s, v, on))
  {
    var t := WithHandler(s, v, on);
    assert forall c: nat, g: nat :: Mapped(t, c, g) == Mapped(s, c, g);
    forall c: nat, g: nat | c < |t.domains| && Mapped(t, c, g) != 0 ensures Intact(t, c, g) {
      assert Intact(s, c, g);
      HandlerIntact(s, v, on, c, g);
    }
  }
}
