/** Interrupt domains, virtual interrupt numbers and descriptors as one value.

    A descriptor is known by its virq; virq 0 is never given out and stands for a null
    descriptor. A domain maps hardware interrupts to virqs in an array with a reverse
    cache, or in a sparse tree. A hierarchy domain also needs a mapping of its parent.
    Domains are numbered in creation order, so a parent comes before its children.
 */
module IrqState {
  import opened Bits
  import opened Options

  const MAX_VIRQ: nat := 1024
  const INVALID: nat := 0xFFFF_FFFF

  /** A slot of a tree domain: set aside for a vector range, or bound to a descriptor. */
  datatype Slot = Reserved | Bound(virq: nat)

  /** `translate` gives the parent's hardware number where it differs from the child's. */
  datatype Kind = Linear | Tree | Hierarchy(parent: nat, translate: map<nat, nat>)

  datatype Domain = Domain(kind: Kind, linear: seq<nat>, revmap: seq<nat>, tree: map<nat, Slot>)

  datatype Desc = Desc(hwirq: nat, domain: Option<nat>, parent: nat, action: bool)

  datatype State = State(bitmap: seq<bool>, descs: seq<Option<Desc>>, domains: seq<Domain>)

  // -------------------------------------------------------------- reading

  function Lookup(m: Domain, h: nat): nat {
    if m.kind.Tree? then
      if h in m.tree && m.tree[h].Bound? then m.tree[h].virq else 0
    else if h < |m.linear| then m.linear[h] else 0
  }

  /** The virq of a hardware interrupt, 0 if it has none. */
  function Mapped(s: State, d: nat, h: nat): nat {
    if d < |s.domains| then Lookup(s.domains[d], h) else 0
  }

  predicate InRange(m: Domain, h: nat) {
    m.kind.Tree? || h < |m.linear|
  }

  /** The parent's number for the child's. */
  function Up(m: Domain, h: nat): nat
    requires m.kind.Hierarchy?
  {
    if h in m.kind.translate then m.kind.translate[h] else h
  }

  function FirstClear(bitmap: seq<bool>): (v: nat)
    ensures v <= |bitmap| && (v < |bitmap| ==> !bitmap[v]) && forall j :: 0 <= j < v ==> bitmap[j]
  {
    if bitmap == [] then 0
    else var v := FirstClear(bitmap[..|bitmap| - 1]);
         if v < |bitmap| - 1 || !bitmap[|bitmap| - 1] then v else |bitmap|
  }

  /** A virq is free exactly when some bit is clear. */
  lemma {:induction false} SomeClear(bitmap: seq<bool>)
    ensures FirstClear(bitmap) < |bitmap| <==> ClearBits(bitmap) > 0
  {
    if bitmap != [] { SomeClear(bitmap[..|bitmap| - 1]); }
  }

  // -------------------------------------------------------------- what every state keeps

  ghost predicate DomainOk(m: Domain, d: nat) {
    && (m.kind.Hierarchy? ==> m.kind.parent < d)
    && (m.kind.Tree? ==> m.linear == []) && (!m.kind.Tree? ==> m.tree == map[])
    && |m.revmap| == |m.linear| && (forall h :: h in m.tree ==> m.tree[h] != Bound(0))
    && forall h :: 0 <= h < |m.linear| ==> m.revmap[h] == if m.linear[h] == 0 then INVALID else m.linear[h]
  }

  ghost predicate DomainsOk(s: State) {
    forall d :: 0 <= d < |s.domains| ==> DomainOk(s.domains[d], d)
  }

  ghost predicate TablesOk(s: State) {
    && |s.bitmap| == |s.descs| == MAX_VIRQ && s.bitmap[0] && s.descs[0].None?
    && forall v :: 0 <= v < MAX_VIRQ && s.descs[v].Some? ==> s.bitmap[v]
  }

  /** Every virq in a map has a descriptor. */
  ghost predicate Pointers(s: State)
    requires |s.descs| == MAX_VIRQ
  {
    forall d: nat, h: nat :: Mapped(s, d, h) != 0 ==> Mapped(s, d, h) < MAX_VIRQ && s.descs[Mapped(s, d, h)].Some?
  }

  /** What holds at every moment, also inside an operation. */
  ghost predicate Base(s: State) {
    DomainsOk(s) && TablesOk(s) && Pointers(s)
  }

  /** The mapping's descriptor names it, and so on up the parents. */
  ghost predicate Intact(s: State, d: nat, h: nat)
    decreases d
  {
    && |s.descs| == MAX_VIRQ && d < |s.domains|
    && 0 < Mapped(s, d, h) < MAX_VIRQ && s.descs[Mapped(s, d, h)].Some?
    && var m, e := s.domains[d], s.descs[Mapped(s, d, h)].value;
       && e.domain == Some(d) && e.hwirq == h
       && (m.kind.Hierarchy? ==> m.kind.parent < d && e.parent == Mapped(s, m.kind.parent, Up(m, h)) && Intact(s, m.kind.parent, Up(m, h)))
  }

  /** All mappings of the domains below `d` are intact. */
  ghost predicate IntactBelow(s: State, d: nat) {
    forall c: nat, h: nat :: c < d && Mapped(s, c, h) != 0 ==> Intact(s, c, h)
  }

  /** A descriptor that names a mapping is the one mapped. */
  ghost predicate Owned(s: State) {
    forall v: nat :: v < |s.descs| && s.descs[v].Some? && s.descs[v].value.domain.Some? ==>
      Mapped(s, s.descs[v].value.domain.value, s.descs[v].value.hwirq) == v
  }

  /** What holds between operations. */
  ghost predicate Inv(s: State) {
    Base(s) && IntactBelow(s, |s.domains|) && Owned(s)
  }

  /** Different hardware interrupts have different virqs, across all domains. */
  lemma DistinctVirqs(s: State, d: nat, h: nat, c: nat, g: nat)
    requires Inv(s) && Mapped(s, d, h) != 0 && Mapped(s, d, h) == Mapped(s, c, g)
    ensures d == c && h == g
  {
    assert Intact(s, d, h) && Intact(s, c, g);
  }

  // -------------------------------------------------------------- writing

  function Store(m: Domain, h: nat, v: nat): Domain {
    if m.kind.Tree? then m.(tree := m.tree[h := Bound(v)])
    else if h < |m.linear| && h < |m.revmap| then m.(linear := m.linear[h := v], revmap := m.revmap[h := v])
    else m
  }

  function Erase(m: Domain, h: nat): Domain {
    if m.kind.Tree? then m.(tree := m.tree - {h})
    else if h < |m.linear| && h < |m.revmap| then m.(linear := m.linear[h := 0], revmap := m.revmap[h := INVALID])
    else m
  }

  /** A new descriptor, not yet tied to a mapping. */
  const BLANK: Desc := Desc(INVALID, None, 0, false)

  /** The state with virq `v` set, its descriptor `e`, and domain `d` replaced. */
  function Over(s: State, v: nat, bit: bool, e: Option<Desc>, d: nat, m: Domain): State
    requires v < |s.bitmap| && v < |s.descs| && d < |s.domains|
  {
    State(s.bitmap[v := bit], s.descs[v := e], s.domains[d := m])
  }

  /** The child's half of a new mapping, before its parent is mapped. */
  function Place(s: State, d: nat, h: nat, v: nat): State
    requires v < |s.bitmap| && v < |s.descs| && d < |s.domains|
  {
    Over(s, v, true, Some(BLANK), d, Store(s.domains[d], h, v))
  }

  function Link(s: State, d: nat, h: nat, v: nat, parent: nat): State
    requires v < |s.descs|
  {
    s.(descs := s.descs[v := Some(Desc(h, Some(d), parent, false))])
  }

  /** Virqs and range suffice for the mapping and those of its parents. */
  predicate Feasible(s: State, d: nat, h: nat)
    requires |s.bitmap| == |s.descs|
    decreases d
  {
    d < |s.domains| &&
    (Mapped(s, d, h) != 0 ||
     var v, m := FirstClear(s.bitmap), s.domains[d];
     && v < |s.bitmap| && InRange(m, h)
     && (m.kind.Hierarchy? ==> m.kind.parent < d && Feasible(Place(s, d, h, v), m.kind.parent, Up(m, h))))
  }

  /** The state with the hardware interrupt mapped, and its parents with it. The sizes, the
      domains above and the virqs already in use are left alone. */
  function Attach(s: State, d: nat, h: nat): (t: State)
    requires |s.bitmap| == |s.descs| && Feasible(s, d, h)
    ensures |t.bitmap| == |t.descs| == |s.bitmap| && |t.domains| == |s.domains|
    ensures forall c :: d < c < |s.domains| ==> t.domains[c] == s.domains[c]
    ensures forall v :: 0 <= v < |s.bitmap| && s.bitmap[v] ==> t.bitmap[v] && t.descs[v] == s.descs[v]
    decreases d
  {
    if Mapped(s, d, h) != 0 then s
    else
      var v, m := FirstClear(s.bitmap), s.domains[d];
      var placed := Place(s, d, h, v);
      if m.kind.Hierarchy? then
        var up := Attach(placed, m.kind.parent, Up(m, h));
        Link(up, d, h, v, Mapped(up, m.kind.parent, Up(m, h)))
      else Link(placed, d, h, v, 0)
  }

  // -------------------------------------------------------------- independence of child and parents

  /** Replacing a domain above and the descriptor of a virq in use does not matter to a lookup below. */
  lemma {:induction false} FeasibleOver(s: State, v: nat, e: Option<Desc>, d: nat, m: Domain, c: nat, h: nat)
    requires |s.bitmap| == |s.descs| && v < |s.bitmap| && s.bitmap[v] && c < d < |s.domains|
    ensures Feasible(Over(s, v, true, e, d, m), c, h) == Feasible(s, c, h)
    decreases c
  {
    var t := Over(s, v, true, e, d, m);
    assert t.bitmap == s.bitmap && t.domains[c] == s.domains[c];
    if Mapped(s, c, h) == 0 && FirstClear(s.bitmap) < |s.bitmap| {
      var w, n := FirstClear(s.bitmap), s.domains[c];
      if n.kind.Hierarchy? && n.kind.parent < c {
        PlaceOver(s, v, e, d, m, c, h, w);
        FeasibleOver(Place(s, c, h, w), v, e, d, m, n.kind.parent, Up(n, h));
      }
    }
  }

  lemma PlaceOver(s: State, v: nat, e: Option<Desc>, d: nat, m: Domain, c: nat, h: nat, w: nat)
    requires |s.bitmap| == |s.descs| && v < |s.bitmap| && s.bitmap[v] && c < d < |s.domains| && w < |s.bitmap| && w != v
    ensures Place(Over(s, v, true, e, d, m), c, h, w) == Over(Place(s, c, h, w), v, true, e, d, m)
  {
    var a, b := Place(Over(s, v, true, e, d, m), c, h, w), Over(Place(s, c, h, w), v, true, e, d, m);
    assert a.bitmap == b.bitmap && a.descs == b.descs && a.domains == b.domains;
  }

  lemma LinkOver(s: State, v: nat, e: Option<Desc>, d: nat, m: Domain, c: nat, h: nat, w: nat, parent: nat)
    requires |s.bitmap| == |s.descs| && v < |s.bitmap| && c < d < |s.domains| && w < |s.bitmap| && w != v
    ensures Link(Over(s, v, true, e, d, m), c, h, w, parent) == Over(Link(s, c, h, w, parent), v, true, e, d, m)
  {
    var a, b := Link(Over(s, v, true, e, d, m), c, h, w, parent), Over(Link(s, c, h, w, parent), v, true, e, d, m);
    assert a.descs == b.descs;
  }

  /** Mapping below commutes with the child's half of a mapping above. */
  lemma {:induction false} AttachOver(s: State, v: nat, e: Option<Desc>, d: nat, m: Domain, c: nat, h: nat)
    requires |s.bitmap| == |s.descs| && v < |s.bitmap| && s.bitmap[v] && c < d < |s.domains| && Feasible(s, c, h)
    ensures Feasible(Over(s, v, true, e, d, m), c, h)
    ensures Attach(Over(s, v, true, e, d, m), c, h) == Over(Attach(s, c, h), v, true, e, d, m)
    decreases c
  {
    FeasibleOver(s, v, e, d, m, c, h);
    var t := Over(s, v, true, e, d, m);
    assert t.bitmap == s.bitmap && t.domains[c] == s.domains[c];
    if Mapped(s, c, h) == 0 {
      var w, n := FirstClear(s.bitmap), s.domains[c];
      PlaceOver(s, v, e, d, m, c, h, w);
      var placed := Place(s, c, h, w);
      if n.kind.Hierarchy? {
        var p, g := n.kind.parent, Up(n, h);
        AttachOver(placed, v, e, d, m, p, g);
        var up := Attach(placed, p, g);
        LinkOver(up, v, e, d, m, c, h, w, Mapped(up, p, g));
      } else {
        LinkOver(placed, v, e, d, m, c, h, w, 0);
      }
    }
  }

  /** The state with one more virq taken. */
  function Taken(s: State, v: nat): State
    requires v < |s.bitmap|
  {
    s.(bitmap := s.bitmap[v := true])
  }

  /** A new mapping in a hierarchy is its parent's mapping, made with the child's virq taken, and then its own. */
  lemma AttachHierarchy(s: State, d: nat, h: nat)
    requires |s.bitmap| == |s.descs| && Feasible(s, d, h) && Mapped(s, d, h) == 0 && s.domains[d].kind.Hierarchy?
    ensures var v, m := FirstClear(s.bitmap), s.domains[d];
            var p, g := m.kind.parent, Up(m, h);
            && p < d && v < |s.bitmap| && Feasible(Taken(s, v), p, g)
            && var up := Attach(Taken(s, v), p, g);
               Attach(s, d, h) == Over(up, v, true, Some(Desc(h, Some(d), Mapped(up, p, g), false)), d, Store(m, h, v))
  {
    var v, m := FirstClear(s.bitmap), s.domains[d];
    var p, g := m.kind.parent, Up(m, h);
    var taken := Taken(s, v);
    var placed := Place(s, d, h, v);
    assert placed == Over(taken, v, true, Some(BLANK), d, Store(m, h, v));
    FeasibleOver(taken, v, Some(BLANK), d, Store(m, h, v), p, g);
    AttachOver(taken, v, Some(BLANK), d, Store(m, h, v), p, g);
    var up := Attach(taken, p, g);
    var a := Attach(s, d, h);
    var b := Over(up, v, true, Some(Desc(h, Some(d), Mapped(up, p, g), false)), d, Store(m, h, v));
    assert a.descs == b.descs;
  }

  /** A new mapping without a parent. */
  lemma AttachRoot(s: State, d: nat, h: nat)
    requires |s.bitmap| == |s.descs| && Feasible(s, d, h) && Mapped(s, d, h) == 0 && !s.domains[d].kind.Hierarchy?
    ensures var v, m := FirstClear(s.bitmap), s.domains[d];
            v < |s.bitmap| && Attach(s, d, h) == Over(s, v, true, Some(Desc(h, Some(d), 0, false)), d, Store(m, h, v))
  {
    var v, m := FirstClear(s.bitmap), s.domains[d];
    var a, b := Attach(s, d, h), Over(s, v, true, Some(Desc(h, Some(d), 0, false)), d, Store(m, h, v));
    assert a.descs == b.descs;
  }
}
