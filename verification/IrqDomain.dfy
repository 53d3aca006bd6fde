/** The interrupt core: the virq bitmap, the descriptor table and the domains, and the
    operations that create, find and dispose of mappings.

    Memory allocation may fail at any call, and so may a domain's `map` callback.
    A tree domain is the finite map its radix tree stands for.
 */
module IrqDomain {
  import opened Bits
  import opened Options
  import opened IrqState
  import opened IrqMappings

  /** How a creation ended; a refusal names the member of the path whose `map` callback refused. */
  datatype Outcome = Fine | Infeasible | NoMemory | LostMark | Refused(domain: nat, hwirq: nat)

  /** The virq has a descriptor that names a mapping. */
  predicate Named(s: State, virq: nat) {
    virq < MAX_VIRQ && virq < |s.descs| && s.descs[virq].Some? && s.descs[virq].value.domain.Some?
  }

  lemma StoreShape(m: Domain, d: nat, h: nat, v: nat)
    requires DomainOk(m, d) && !m.kind.Tree? && InRange(m, h)
    ensures var n := Store(m, h, v); n.kind == m.kind && h < |n.linear| == |n.revmap|
  {
  }

  lemma MappedBelow(s: State, d: nat, h: nat)
    requires Base(s)
    ensures Mapped(s, d, h) < MAX_VIRQ
  {
  }

  lemma OutcomeDomains(s: State, t: State, d: nat, h: nat, why: Outcome)
    requires Base(s) && IntactBelow(s, d + 1) && d < |s.domains| && (why.Refused? ==> DomainsOk(t))
    requires why.Fine? ==> Feasible(s, d, h) && t == Attach(s, d, h)
    requires why.Infeasible? || why.NoMemory? ==> t == s
    requires why.LostMark? ==> t == Unmark(s, d, h) && RootUnmapped(s, d, h)
    ensures DomainsOk(t)
  {
    if why.Fine? { AttachSound(s, d, h, d + 1); }
    if why.LostMark? { UnmarkSound(s, d, h, d + 1); }
  }

  lemma CreateKeeps(s: State, t: State, d: nat, h: nat, why: Outcome)
    requires Inv(s) && d < |s.domains|
    requires why.Fine? ==> Feasible(s, d, h) && t == Attach(s, d, h)
    requires why.Infeasible? || why.NoMemory? ==> t == s
    requires why.LostMark? ==> t == Unmark(s, d, h) && RootUnmapped(s, d, h)
    ensures !why.Refused? ==> Inv(t)
  {
    if why.Fine? { AttachSound(s, d, h, |s.domains|); }
    if why.LostMark? { UnmarkSound(s, d, h, |s.domains|); }
  }

  ghost predicate ClearRun(bitmap: seq<bool>, base: nat, count: nat) {
    base + count <= |bitmap| && forall j :: base <= j < base + count ==> !bitmap[j]
  }

  function WithRun(bitmap: seq<bool>, base: nat, count: nat, taken: bool): (r: seq<bool>)
    ensures |r| == |bitmap|
  {
    seq(|bitmap|, i requires 0 <= i < |bitmap| => if base <= i < base + count then taken else bitmap[i])
  }

  /** Taking a free run of virqs and freeing it restores the bitmap. */
  lemma RunRoundTrip(bitmap: seq<bool>, base: nat, count: nat)
    requires ClearRun(bitmap, base, count)
    ensures WithRun(WithRun(bitmap, base, count, true), base, count, false) == bitmap
  {
    var back := WithRun(WithRun(bitmap, base, count, true), base, count, false);
    forall i | 0 <= i < |bitmap| ensures back[i] == bitmap[i] {}
  }

  class IrqCore {
    var bitmap: seq<bool>
    var descs: seq<Option<Desc>>
    var domains: seq<Domain>
    /** How often memory could not be had, and how often a `map` callback refused. */
    ghost var failures: nat
    ghost var refusals: nat

    ghost function Now(): State
      reads this
    {
      State(bitmap, descs, domains)
    }

    constructor ()
      ensures Inv(Now()) && domains == [] && bitmap == seq(MAX_VIRQ, i => i == 0)
    {
      bitmap := seq(MAX_VIRQ, i => i == 0);
      descs := seq(MAX_VIRQ, _ => None);
      domains := [];
    }

    // -------------------------------------------------------------- what can fail

    /** Ask for memory. */
    method TryMemory() returns (ok: bool)
      modifies this`failures
      ensures failures == old(failures) + if ok then 0 else 1
    {
      ok := *;
      if !ok { failures := failures + 1; }
    }

    /** The domain's `map` callback. */
    method TryCallback() returns (ok: bool)
      modifies this`refusals
      ensures refusals == old(refusals) + if ok then 0 else 1
    {
      ok := *;
      if !ok { refusals := refusals + 1; }
    }

    // -------------------------------------------------------------- virqs and descriptors

    /** The lowest free virq, now taken; INVALID if there is none. */
    method VirqAlloc() returns (virq: nat)
      requires |bitmap| == MAX_VIRQ
      modifies this`bitmap
      ensures FirstClear(old(bitmap)) < MAX_VIRQ ==> virq == FirstClear(old(bitmap)) && bitmap == old(bitmap)[virq := true]
      ensures FirstClear(old(bitmap)) == MAX_VIRQ ==> virq == INVALID && bitmap == old(bitmap)
    {
      var i := 0;
      while i < MAX_VIRQ
        invariant 0 <= i <= FirstClear(bitmap) && bitmap == old(bitmap)
      {
        if !bitmap[i] {
          bitmap := bitmap[i := true];
          return i;
        }
        i := i + 1;
      }
      return INVALID;
    }

    method VirqFree(virq: nat)
      requires |bitmap| == MAX_VIRQ
      modifies this`bitmap
      ensures bitmap == if 0 < virq < MAX_VIRQ then old(bitmap)[virq := false] else old(bitmap)
    {
      if virq == 0 || virq >= MAX_VIRQ { return; }
      bitmap := bitmap[virq := false];
    }

    /** The lowest run of free virqs, now taken; INVALID if there is none. */
    method VirqAllocRange(count: nat) returns (virq: nat)
      requires |bitmap| == MAX_VIRQ
      modifies this`bitmap
      ensures virq == INVALID <==> count == 0 || forall b: nat :: !ClearRun(old(bitmap), b, count)
      ensures virq == INVALID ==> bitmap == old(bitmap)
      ensures virq != INVALID ==> ClearRun(old(bitmap), virq, count) && bitmap == WithRun(old(bitmap), virq, count, true)
      ensures virq != INVALID ==> forall b: nat :: b < virq ==> !ClearRun(old(bitmap), b, count)
    {
      if count == 0 || count > MAX_VIRQ { return INVALID; }
      var start, consecutive, i := 0, 0, 0;
      while i < MAX_VIRQ
        invariant 0 <= i <= MAX_VIRQ && consecutive <= i && consecutive < count && bitmap == old(bitmap)
        invariant consecutive > 0 ==> start == i - consecutive
        invariant forall j :: i - consecutive <= j < i ==> !bitmap[j]
        invariant forall b: nat :: b < i - consecutive ==> !ClearRun(bitmap, b, count)
      {
        if !bitmap[i] {
          if consecutive == 0 { start := i; }
          consecutive := consecutive + 1;
          if consecutive == count {
            assert ClearRun(old(bitmap), start, count);
            SetRun(start, count, true);
            return start;
          }
        } else {
          assert forall b: nat :: i - consecutive <= b <= i && ClearRun(bitmap, b, count) ==> !bitmap[i];
          consecutive := 0;
        }
        i := i + 1;
      }
      return INVALID;
    }

    method SetRun(base: nat, count: nat, taken: bool)
      requires base + count <= |bitmap|
      modifies this`bitmap
      ensures bitmap == WithRun(old(bitmap), base, count, taken)
    {
      var i := 0;
      while i < count
        invariant 0 <= i <= count && bitmap == WithRun(old(bitmap), base, i, taken)
      {
        bitmap := bitmap[base + i := taken];
        i := i + 1;
      }
    }

    /** Free a run of virqs; virq 0 and runs that leave the bitmap are ignored. */
    method VirqFreeRange(virq: nat, count: nat)
      requires |bitmap| == MAX_VIRQ && virq + count < 0x1_0000_0000
      modifies this`bitmap
      ensures bitmap == if virq == 0 || virq + count > MAX_VIRQ then old(bitmap) else WithRun(old(bitmap), virq, count, false)
    {
      if virq == 0 || count == 0 || virq + count > MAX_VIRQ { return; }
      SetRun(virq, count, false);
    }

    /** Give the virq a blank descriptor, unless it has one; fails without memory. */
    method DescAlloc(virq: nat) returns (ok: bool)
      requires |descs| == MAX_VIRQ
      modifies this`descs, this`failures
      ensures virq >= MAX_VIRQ ==> !ok && failures == old(failures)
      ensures virq < MAX_VIRQ ==> failures == old(failures) + if ok then 0 else 1
      ensures virq < MAX_VIRQ && old(descs)[virq].Some? ==> ok
      ensures descs == if ok && old(descs)[virq].None? then old(descs)[virq := Some(BLANK)] else old(descs)
    {
      if virq >= MAX_VIRQ { return false; }
      if descs[virq].Some? { return true; }
      ok := TryMemory();
      if ok { descs := descs[virq := Some(BLANK)]; }
    }

    /** Drop a descriptor; with a handler still attached the kernel stops. */
    method DescFree(virq: nat) returns (panicked: bool)
      requires |descs| == MAX_VIRQ
      modifies this`descs
      ensures panicked <==> virq < MAX_VIRQ && old(descs)[virq].Some? && old(descs)[virq].value.action
      ensures descs == if virq < MAX_VIRQ && !panicked then old(descs)[virq := None] else old(descs)
    {
      if virq >= MAX_VIRQ || descs[virq].None? { return false; }
      if descs[virq].value.action { return true; }
      descs := descs[virq := None];
      panicked := false;
    }

    /** Attach a handler to a virq; `shared` tells whether it and the present ones may share the line. */
    method RequestIrq(virq: nat, shared: bool) returns (ok: bool)
      requires Inv(Now())
      modifies this`descs, this`failures
      ensures Inv(Now())
      ensures ok <==> virq < MAX_VIRQ && old(descs)[virq].Some? && (old(descs)[virq].value.action ==> shared) && failures == old(failures)
      ensures Now() == if ok then WithHandler(old(Now()), virq, true) else old(Now())
    {
      if virq >= MAX_VIRQ || descs[virq].None? { return false; }
      var memory := TryMemory();
      if !memory || (descs[virq].value.action && !shared) { return false; }
      HandlerKeeps(Now(), virq, true);
      descs := descs[virq := Some(descs[virq].value.(action := true))];
      ok := true;
    }

    /** Detach a handler; `last` tells whether no other remains. */
    method FreeIrq(virq: nat, last: bool)
      requires Inv(Now())
      modifies this`descs
      ensures Inv(Now())
      ensures Now() == if last && virq < MAX_VIRQ && old(descs)[virq].Some? then WithHandler(old(Now()), virq, false) else old(Now())
    {
      if virq >= MAX_VIRQ || descs[virq].None? || !last { return; }
      HandlerKeeps(Now(), virq, false);
      descs := descs[virq := Some(descs[virq].value.(action := false))];
    }

    // -------------------------------------------------------------- domains

    /** A new domain without mappings. */
    method CreateDomain(kind: Kind, size: nat) returns (ok: bool, d: nat)
      requires Inv(Now()) && (kind.Hierarchy? ==> kind.parent < |domains|)
      modifies this`domains, this`failures
      ensures Inv(Now()) && forall c: nat, h: nat :: Mapped(Now(), c, h) == old(Mapped(Now(), c, h))
      ensures ok ==> d == old(|domains|) && |domains| == d + 1 && domains[..d] == old(domains)
      ensures ok ==> domains[d].kind == kind && (!kind.Tree? ==> |domains[d].linear| == size)
      ensures !ok ==> domains == old(domains)
      ensures ok <==> !(kind.Linear? && (size == 0 || size > 10000)) && failures == old(failures)
    {
      d := |domains|;
      if kind.Linear? && (size == 0 || size > 10000) { return false, d; }
      var memory := TryMemory();
      if !memory { return false, d; }
      var n := if kind.Tree? then 0 else size;
      var m := Domain(kind, seq(n, _ => 0), seq(n, _ => INVALID), map[]);
      ghost var s := Now();
      domains := domains + [m];
      assert forall c: nat, h: nat :: Mapped(Now(), c, h) == Mapped(s, c, h);
      forall c: nat, h: nat | c < |domains| && Mapped(Now(), c, h) != 0 ensures Intact(Now(), c, h) {
        assert Intact(s, c, h);
        MoreDomainsIntact(s, Now(), c, h);
      }
      ok := true;
    }

    // -------------------------------------------------------------- finding

    method FindMapping(d: nat, h: nat) returns (virq: nat)
      requires DomainsOk(Now()) && d < |domains|
      ensures virq == if Mapped(Now(), d, h) == 0 then INVALID else Mapped(Now(), d, h)
    {
      var m := domains[d];
      virq := INVALID;
      if m.kind.Tree? {
        if h in m.tree && m.tree[h] != Reserved { virq := m.tree[h].virq; }
      } else if h < |m.linear| && m.linear[h] != 0 {
        virq := m.linear[h];
      } else if h < |m.revmap| {
        virq := m.revmap[h];
      }
    }

    // -------------------------------------------------------------- creating

    /** Undo the child's half of a mapping whose parent could not be mapped. */
    method Rollback(d: nat, h: nat, virq: nat)
      requires |bitmap| == |descs| == MAX_VIRQ && 0 < virq < MAX_VIRQ && d < |domains|
      requires descs[virq] == Some(BLANK) && !domains[d].kind.Tree? && h < |domains[d].linear| == |domains[d].revmap|
      modifies this`bitmap, this`descs, this`domains
      ensures Now() == Over(old(Now()), virq, false, None, d, Erase(old(domains[d]), h))
    {
      var m := domains[d];
      domains := domains[d := m.(linear := m.linear[h := 0], revmap := m.revmap[h := INVALID])];
      VirqFree(virq);
      var _ := DescFree(virq);
    }

    /** Store the new descriptor in the domain's map; a tree may lack the memory, and a
        reservation is then gone. */
    method StoreMapping(d: nat, h: nat, virq: nat) returns (ok: bool, ghost starved: bool)
      requires DomainsOk(Now()) && d < |domains| && Mapped(Now(), d, h) == 0 && virq != 0
      modifies this`domains, this`failures
      ensures starved ==> !ok
      ensures failures == old(failures) + if starved then 1 else 0
      ensures ok ==> InRange(old(domains[d]), h) && domains == old(domains)[d := Store(old(domains[d]), h, virq)]
      ensures !ok && !starved ==> !InRange(old(domains[d]), h) && domains == old(domains)
      ensures !ok && starved ==> old(domains[d]).kind.Tree?
      ensures !ok && starved ==> Now() == (if h in old(domains[d]).tree then Unmark(old(Now()), d, h) else old(Now()))
    {
      var m := domains[d];
      starved := false;
      if !m.kind.Tree? {
        if h >= |m.linear| { return false, false; }
        domains := domains[d := m.(linear := m.linear[h := virq], revmap := m.revmap[h := virq])];
        return true, false;
      }
      var inserted := TryMemory();
      if h in m.tree && m.tree[h] == Reserved {
        domains := domains[d := m.(tree := m.tree - {h})];
      }
      if !inserted { return false, true; }
      m := domains[d];
      domains := domains[d := m.(tree := m.tree[h := Bound(virq)])];
      assert domains[d].tree == old(domains[d]).tree[h := Bound(virq)];
      return true, false;
    }

    /** Map a hardware interrupt, and its parents where the domain has any. When it fails for lack of
        range, virqs or memory, everything is as before, save a reservation that a failed
        insertion loses. A refusal by the `map` callback purges the path from the member that refused on:
        everything is as before if and only if the path was clean. */
    method CreateMapping(d: nat, h: nat) returns (virq: nat, ghost why: Outcome)
      requires Base(Now()) && IntactBelow(Now(), d + 1) && d < |domains|
      modifies this
      ensures why.Fine? <==> virq != INVALID
      ensures why.Fine? ==> Feasible(old(Now()), d, h) && Now() == Attach(old(Now()), d, h) && virq == Mapped(Now(), d, h)
      ensures why.Infeasible? ==> !Feasible(old(Now()), d, h)
      ensures why.Infeasible? || why.NoMemory? ==> Now() == old(Now())
      ensures why.LostMark? ==> Now() == Unmark(old(Now()), d, h) && RootUnmapped(old(Now()), d, h) && !Clean(old(Now()), d, h)
      ensures why.Refused? ==> OpenUpTo(old(Now()), d, h, why.domain, why.hwirq) && Now() == Purge(old(Now()), d, h)
      ensures why.Refused? ==> (Now() == old(Now()) <==> Clean(old(Now()), d, h))
      ensures DomainsOk(Now())
      ensures old(Inv(Now())) && !why.Refused? ==> Inv(Now())
      ensures |bitmap| == |descs| == MAX_VIRQ && |domains| == old(|domains|)
      ensures forall c :: d < c < |domains| ==> domains[c] == old(domains[c])
      ensures forall v :: 0 <= v < MAX_VIRQ && old(bitmap[v]) && Unused(old(Now()), v, d) ==> bitmap[v] && descs[v] == old(descs[v])
      ensures old(Mapped(Now(), d, h)) != 0 ==> why.Fine?
      ensures why.Fine? && domains[d].kind.Hierarchy? ==> Parented(Now(), d, h)
      ensures failures == old(failures) + if why.NoMemory? || why.LostMark? then 1 else 0
      ensures refusals == old(refusals) + if why.Refused? then 1 else 0
      decreases d, 3
    {
      hide IntactBelow;
      hide Intact;
      hide Parented;
      hide Purge;
      hide OpenUpTo;
      hide Clean;
      hide RootUnmapped;
      ghost var s := Now();
      virq := FindMapping(d, h);
      why := Fine;
      if virq == INVALID {
        virq, why := NewMapping(d, h);
      }
      if why.Refused? {
        PurgeNothing(s, d, h);
        PurgeDomains(s, d, h);
      }
      if why.Fine? && s.domains[d].kind.Hierarchy? { ParentMapped(s, d, h); }
      OutcomeDomains(s, Now(), d, h, why);
      if Inv(s) { CreateKeeps(s, Now(), d, h, why); }
    }

    /** The same for a hardware interrupt that is not mapped yet. */
    method NewMapping(d: nat, h: nat) returns (virq: nat, ghost why: Outcome)
      requires Base(Now()) && IntactBelow(Now(), d + 1) && d < |domains| && Mapped(Now(), d, h) == 0
      modifies this
      ensures why.Fine? <==> virq != INVALID
      ensures why.Fine? ==> Feasible(old(Now()), d, h) && Now() == Attach(old(Now()), d, h) && virq == Mapped(Now(), d, h)
      ensures why.Infeasible? ==> !Feasible(old(Now()), d, h)
      ensures why.Infeasible? || why.NoMemory? ==> Now() == old(Now())
      ensures why.LostMark? ==> Now() == Unmark(old(Now()), d, h) && RootUnmapped(old(Now()), d, h) && !Clean(old(Now()), d, h)
      ensures why.Refused? ==> OpenUpTo(old(Now()), d, h, why.domain, why.hwirq) && Now() == Purge(old(Now()), d, h)
      ensures |bitmap| == |descs| == MAX_VIRQ && |domains| == old(|domains|)
      ensures forall c :: d < c < |domains| ==> domains[c] == old(domains[c])
      ensures forall v :: 0 <= v < MAX_VIRQ && old(bitmap[v]) && Unused(old(Now()), v, d) ==> bitmap[v] && descs[v] == old(descs[v])
      ensures failures == old(failures) + if why.NoMemory? || why.LostMark? then 1 else 0
      ensures refusals == old(refusals) + if why.Refused? then 1 else 0
      decreases d, 2
    {
      hide IntactBelow;
      hide Intact;
      hide Purge;
      hide OpenUpTo;
      ghost var s := Now();
      virq := VirqAlloc();
      if virq == INVALID { return INVALID, Infeasible; }
      FreshVirq(s);
      var ok := DescAlloc(virq);
      if !ok {
        VirqFree(virq);
        assert Now() == s;
        return INVALID, NoMemory;
      }
      ghost var starved;
      ok, starved := StoreMapping(d, h, virq);
      if !ok {
        VirqFree(virq);
        var _ := DescFree(virq);
        assert bitmap == s.bitmap && descs == s.descs;
        return INVALID, if !starved then Infeasible else if h in s.domains[d].tree then LostMark else NoMemory;
      }
      assert Now() == Place(s, d, h, virq);
      virq, why := FinishMapping(d, h, virq, s);
    }

    /** The second half: map the parent, tie up the descriptor, call back. */
    method FinishMapping(d: nat, h: nat, virq: nat, ghost s: State) returns (r: nat, ghost why: Outcome)
      requires Base(s) && IntactBelow(s, d + 1) && d < |s.domains| && Mapped(s, d, h) == 0 && InRange(s.domains[d], h)
      requires virq == FirstClear(s.bitmap) < MAX_VIRQ && Now() == Place(s, d, h, virq)
      modifies this
      ensures why.Fine? <==> r != INVALID
      ensures why.Fine? ==> Feasible(s, d, h) && Now() == Attach(s, d, h) && r == Mapped(Now(), d, h)
      ensures why.Infeasible? ==> !Feasible(s, d, h)
      ensures why.Infeasible? || why.NoMemory? ==> Now() == s
      ensures why.LostMark? ==> Now() == Unmark(s, d, h) && RootUnmapped(s, d, h) && !Clean(s, d, h)
      ensures why.Refused? ==> OpenUpTo(s, d, h, why.domain, why.hwirq) && Now() == Purge(s, d, h)
      ensures |bitmap| == |descs| == MAX_VIRQ && |domains| == |s.domains|
      ensures forall c :: d < c < |domains| ==> domains[c] == s.domains[c]
      ensures forall v :: 0 <= v < MAX_VIRQ && s.bitmap[v] && Unused(s, v, d) ==> bitmap[v] && descs[v] == s.descs[v]
      ensures failures == old(failures) + if why.NoMemory? || why.LostMark? then 1 else 0
      ensures refusals == old(refusals) + if why.Refused? then 1 else 0
      decreases d, 1
    {
      hide IntactBelow;
      hide Intact;
      hide Pointers;
      hide Store;
      hide Erase;
      hide Purge;
      hide Parented;
      hide Clean;
      hide RootUnmapped;
      FreshVirq(s);
      StoreKind(s.domains[d], h, virq);
      StoreLookup(s.domains[d], h, virq, h);
      PlaceSound(s, d, h, virq);
      var parent := 0;
      if domains[d].kind.Hierarchy? {
        parent, why := MapParent(d, h, virq, s);
        if parent == INVALID { return INVALID, why; }
      }
      descs := descs[virq := Some(Desc(h, Some(d), parent, descs[virq].value.action))];
      assert Now() == Attach(s, d, h);
      r, why := Confirm(d, h, virq, s);
    }

    /** Ask the domain's callback; a refusal disposes of the mapping at once. */
    method Confirm(d: nat, h: nat, virq: nat, ghost s: State) returns (r: nat, ghost why: Outcome)
      requires Base(s) && IntactBelow(s, d + 1) && Feasible(s, d, h) && Mapped(s, d, h) == 0
      requires Now() == Attach(s, d, h) && virq == Mapped(Now(), d, h)
      modifies this`bitmap, this`descs, this`domains, this`refusals
      ensures r != INVALID ==> why.Fine? && Now() == Attach(s, d, h) && r == virq
      ensures r == INVALID ==> why == Refused(d, h) && OpenUpTo(s, d, h, d, h) && Now() == Purge(s, d, h)
      ensures refusals == old(refusals) + if why.Refused? then 1 else 0
    {
      hide IntactBelow;
      hide Intact;
      hide Store;
      hide Erase;
      hide Purge;
      hide Attach;
      BaseBasics(s);
      AttachDetach(s, d, h);
      BaseBasics(Now());
      MappedBelow(Now(), d, h);
      var accepted := TryCallback();
      if accepted { return virq, Fine; }
      DisposeMapping(virq, d, h);
      return INVALID, Refused(d, h);
    }

    /** Map the parent's number; if that fails, undo the child's half. */
    method MapParent(d: nat, h: nat, virq: nat, ghost s: State) returns (parent: nat, ghost why: Outcome)
      requires Base(s) && IntactBelow(s, d + 1) && d < |s.domains| && Mapped(s, d, h) == 0 && InRange(s.domains[d], h)
      requires virq == FirstClear(s.bitmap) < MAX_VIRQ && Now() == Place(s, d, h, virq)
      requires Base(Now()) && IntactBelow(Now(), d)
      requires domains[d].kind.Hierarchy? && domains[d].kind == s.domains[d].kind && domains[d].kind.parent < d
      modifies this
      ensures why.Fine? <==> parent != INVALID
      ensures why.Fine? ==>
        var p, g := s.domains[d].kind.parent, Up(s.domains[d], h);
        Feasible(old(Now()), p, g) && Now() == Attach(old(Now()), p, g) && parent == Mapped(Now(), p, g)
      ensures why.Infeasible? ==> !Feasible(s, d, h)
      ensures why.Infeasible? || why.NoMemory? ==> Now() == s
      ensures why.LostMark? ==> Now() == Unmark(s, d, h) && RootUnmapped(s, d, h) && !Clean(s, d, h)
      ensures why.Refused? ==> OpenUpTo(s, d, h, why.domain, why.hwirq) && Now() == Purge(s, d, h)
      ensures |bitmap| == |descs| == MAX_VIRQ && |domains| == |s.domains|
      ensures forall c :: d < c < |domains| ==> domains[c] == s.domains[c]
      ensures forall v :: 0 <= v < MAX_VIRQ && s.bitmap[v] && Unused(s, v, d) ==> bitmap[v] && descs[v] == s.descs[v]
      ensures failures == old(failures) + if why.NoMemory? || why.LostMark? then 1 else 0
      ensures refusals == old(refusals) + if why.Refused? then 1 else 0
      decreases d, 0
    {
      hide IntactBelow;
      hide Intact;
      hide Pointers;
      hide Store;
      hide Erase;
      hide Purge;
      hide Parented;
      FreshVirq(s);
      StoreKind(s.domains[d], h, virq);
      StoreLookup(s.domains[d], h, virq, h);
      var m := domains[d];
      var p, g := m.kind.parent, Up(m, h);
      BelowLess(Now(), d, p + 1);
      parent, why := CreateMapping(p, g);
      if parent == INVALID {
        StoreShape(s.domains[d], d, h, virq);
        Rollback(d, h, virq);
        if why.Refused? {
          RollbackPurge(s, d, h, virq, why.domain, why.hwirq);
        } else {
          RollbackExact(s, d, h, virq);
          PathOver(s, virq, true, Some(BLANK), d, Store(s.domains[d], h, virq), p, g);
        }
      }
    }

    // -------------------------------------------------------------- disposing

    /** Remove the mapping of a virq and those of its parents. `d` and `h` name the mapping. */
    method DisposeMapping(virq: nat, ghost d: nat, ghost h: nat)
      requires |bitmap| == |descs| == MAX_VIRQ && DomainsOk(Now())
      requires Intact(Now(), d, h) && virq == Mapped(Now(), d, h)
      modifies this`bitmap, this`descs, this`domains
      ensures Now() == Detach(old(Now()), d, h)
      decreases d
    {
      ghost var s := Now();
      var desc := descs[virq].value;
      var domain, hwirq := desc.domain.value, desc.hwirq;
      var m := domains[domain];
      if m.kind.Hierarchy? && desc.parent != 0 {
        descs := descs[virq := Some(desc.(parent := 0))];
        OrphanIntact(s, d, h, virq);
        DisposeMapping(desc.parent, m.kind.parent, Up(m, h));
      }
      ghost var up := Now();
      if !m.kind.Hierarchy? { DetachRoot(s, d, h); }
      m := domains[domain];
      if m.kind.Tree? {
        m := m.(tree := m.tree - {hwirq});
      } else {
        if hwirq < |m.linear| && m.linear[hwirq] == virq { m := m.(linear := m.linear[hwirq := 0]); }
        if hwirq < |m.revmap| { m := m.(revmap := m.revmap[hwirq := INVALID]); }
      }
      domains := domains[domain := m];
      descs := descs[virq := Some(Desc(INVALID, None, 0, desc.action))];
      VirqFree(virq);
      if !desc.action { var _ := DescFree(virq); }
      assert m == Erase(s.domains[d], h);
      assert descs == up.descs[virq := Remains(desc)];
      assert Now() == Over(up, virq, false, Remains(desc), d, m);
    }

    /** The public entry: numbers without descriptor, and descriptors without domain, are ignored. */
    method Dispose(virq: nat)
      requires Inv(Now())
      modifies this`bitmap, this`descs, this`domains
      ensures !old(Named(Now(), virq)) ==> Now() == old(Now())
      ensures old(Named(Now(), virq)) ==>
        var e := old(descs)[virq].value;
        Intact(old(Now()), e.domain.value, e.hwirq) && Now() == Detach(old(Now()), e.domain.value, e.hwirq)
    {
      if virq == INVALID || virq >= MAX_VIRQ || descs[virq].None? || descs[virq].value.domain.None? { return; }
      ghost var d, h := descs[virq].value.domain.value, descs[virq].value.hwirq;
      assert Mapped(Now(), d, h) == virq;
      MappedIntact(Now(), d, h, |domains|);
      DisposeMapping(virq, d, h);
    }
  }
}
