/** The operations of a slab cache: allocate and free an object. */
module SlabCache {
  import opened Bits
  import opened SlabLayout
  import opened Slab

  /** Number, size and place of the objects in a slab. */
  datatype Shape = Shape(n: nat, objectSize: nat, head: nat, slabSize: nat) {
    function Base(id: nat): nat { id + head }
    function Addr(id: nat, i: nat): nat { id + head + i * objectSize }
    /** The address lies in the slab's object area. */
    predicate InArea(id: nat, obj: nat) { Base(id) <= obj < Base(id) + n * objectSize }
    function Index(id: nat, obj: nat): nat {
      if objectSize == 0 || obj < Base(id) then 0 else (obj - Base(id)) / objectSize
    }
    ghost predicate Apart(a: nat, b: nat) { a + slabSize <= b || b + slabSize <= a }
  }

  predicate Sized(h: Shape) {
    1 <= h.n < END && h.objectSize > 0 && h.head > 0 && h.head + h.n * h.objectSize + h.n * 4 <= h.slabSize
  }

  lemma ObjectInArea(h: Shape, id: nat, i: nat)
    requires Sized(h) && i < h.n
    ensures h.InArea(id, h.Addr(id, i)) && h.Index(id, h.Addr(id, i)) == i
    ensures h.Addr(id, i) + h.objectSize <= id + h.slabSize
  {
    MulMonotone(h.objectSize, i + 1, h.n);
    assert h.objectSize * (i + 1) == i * h.objectSize + h.objectSize;
    assert h.objectSize * h.n == h.n * h.objectSize;
    DivModUnique(i * h.objectSize, h.objectSize, i, 0);
  }

  /** Two distinct objects of the cache do not overlap. */
  lemma ObjectsDisjoint(h: Shape, a: nat, i: nat, b: nat, j: nat)
    requires Sized(h) && i < h.n && j < h.n && (a, i) != (b, j) && (a != b ==> h.Apart(a, b))
    ensures h.Addr(a, i) + h.objectSize <= h.Addr(b, j) || h.Addr(b, j) + h.objectSize <= h.Addr(a, i)
  {
    ObjectInArea(h, a, i);
    ObjectInArea(h, b, j);
    if a == b {
      if i < j { NextObject(h.objectSize, i, j); } else { NextObject(h.objectSize, j, i); }
    }
  }

  lemma NextObject(size: nat, i: nat, j: nat)
    requires i < j
    ensures i * size + size <= j * size
  {
    MulMonotone(size, i + 1, j);
    assert size * (i + 1) == i * size + size;
  }

  /** Slabs lie in memory of their own. */
  ghost predicate Spread(h: Shape, ids: set<nat>) {
    forall a, b :: a in ids && b in ids && a != b ==> h.Apart(a, b)
  }

  /** Memory away from all slabs in use. */
  ghost predicate Elsewhere(h: Shape, ids: set<nat>, id: nat) {
    forall a :: a in ids ==> h.Apart(a, id)
  }

  lemma SpreadAdd(h: Shape, ids: set<nat>, id: nat)
    requires Spread(h, ids) && Elsewhere(h, ids, id)
    ensures Spread(h, ids + {id})
  {
  }

  lemma SpreadLess(h: Shape, ids: set<nat>, gone: set<nat>)
    requires Spread(h, ids)
    ensures Spread(h, ids - gone)
  {
  }

  lemma SizedFacts(h: Shape)
    requires Sized(h)
    ensures h.n >= 1 && h.objectSize > 0 && h.head > 0
  {
  }

  /** At most one slab in use has an address in its object area. */
  lemma OneArea(h: Shape, ids: set<nat>, a: nat, b: nat, obj: nat)
    requires Sized(h) && Spread(h, ids) && a in ids && b in ids && h.InArea(a, obj) && h.InArea(b, obj)
    ensures a == b
  {
    assert a != b ==> h.Apart(a, b);
  }

  datatype Stats = Stats(allocs: nat, frees: nat, activeObjs: int, totalObjs: int, activeSlabs: int, totalSlabs: int)

  /** The statistics are those of the state. */
  ghost predicate Accurate(s: Stats, t: State) {
    && s.activeObjs == |t.live| == s.allocs - s.frees
    && s.totalSlabs == |t.slabs.Keys| && s.totalObjs == |t.slabs.Keys| * t.n
    && s.activeSlabs == |t.full| + |t.partial|
  }

  /** No slab has a free object. */
  ghost predicate Exhausted(t: State) {
    forall id :: id in t.slabs ==> t.slabs[id].numFree == 0
  }

  lemma NoOpenSlab(t: State)
    requires Inv(t) && t.partial == [] && t.empty == []
    ensures Exhausted(t)
  {
    forall id | id in t.slabs ensures t.slabs[id].numFree == 0 { WhichList(t, id); }
  }

  lemma HasFree(t: State, id: nat)
    requires Inv(t) && (id in t.partial || id in t.empty)
    ensures !Exhausted(t)
  {
    assert id in t.slabs && t.slabs[id].numFree > 0;
  }

  lemma ListsCover(t: State)
    requires Inv(t)
    ensures forall id :: id in t.slabs ==> id in t.full || id in t.partial || id in t.empty
  {
    forall id | id in t.slabs ensures id in t.full || id in t.partial || id in t.empty { WhichList(t, id); }
  }

  lemma InUse(t: State, id: nat)
    requires Inv(t) && (id in t.full || id in t.partial)
    ensures id in t.slabs && id !in t.empty
  {
    WhichList(t, id);
  }

  lemma OpenedIn(t: State, id: nat)
    requires Opened(t, id)
    ensures id in t.slabs && id in t.partial && t.slabs[id].numFree > 0
  {
  }

  lemma SlabShape(t: State, id: nat)
    requires id in t.slabs && (Inv(t) || Opened(t, id))
    ensures |t.slabs[id].freelist| == t.n && id in t.chain && t.slabs[id].numFree == |t.chain[id]|
  {
    assert SlabOk(t, id);
  }

  /** Reopening an empty slab. */
  lemma ReopenCounts(s: Stats, t: State)
    requires t.empty != [] && Accurate(s, t)
    ensures Accurate(s.(activeSlabs := s.activeSlabs + 1), Reopen(t)) && |Reopen(t).empty| == |t.empty| - 1
  {
    WithoutOnce(t.empty, t.empty[0]);
  }

  lemma AddCounts(s: Stats, t: State, id: nat)
    requires id !in t.slabs && Accurate(s, t)
    ensures Accurate(s.(activeSlabs := s.activeSlabs + 1, totalSlabs := s.totalSlabs + 1, totalObjs := s.totalObjs + t.n),
                     AddSlab(t, id))
    ensures AddSlab(t, id).slabs.Keys == t.slabs.Keys + {id}
  {
    assert AddSlab(t, id).slabs.Keys == t.slabs.Keys + {id};
    OneMore(|t.slabs.Keys|, t.n);
  }

  lemma OneMore(k: nat, n: nat)
    ensures (k + 1) * n == k * n + n
  {
  }

  lemma TakeCounts(s: Stats, t: State, id: nat)
    requires id in t.slabs && id in t.chain && t.chain[id] != [] && (id, t.chain[id][0]) !in t.live
    requires id in t.partial && Accurate(s, t)
    ensures Accurate(s.(allocs := s.allocs + 1, activeObjs := s.activeObjs + 1), Take(t, id))
    ensures Take(t, id).slabs.Keys == t.slabs.Keys && Take(t, id).empty == t.empty
  {
    WithoutOnce(t.partial, id);
    assert Take(t, id).slabs.Keys == t.slabs.Keys;
  }

  /** A free that leaves the slab with an object in use, or with its only object. */
  predicate StaysActive(t: State, id: nat)
    requires id in t.slabs
  {
    t.slabs[id].numFree + 1 == 1 || t.slabs[id].numFree + 1 != t.n
  }

  /** How an object's return changes the lengths of the lists. */
  lemma GiveLengths(t: State, id: nat, x: nat)
    requires Inv(t) && id in t.slabs && id in t.chain && x < |t.slabs[id].freelist|
    ensures var u, d := Give(t, id, x), if StaysActive(t, id) then 0 else 1;
            |u.full| + |u.partial| == |t.full| + |t.partial| - d && |u.empty| == |t.empty| + d
  {
    hide Without;
    hide Inv;
    WhichList(t, id);
    var free := t.slabs[id].numFree;
    if free == 0 {
      WithoutOnce(t.full, id);
    } else if free + 1 == t.n {
      WithoutOnce(t.partial, id);
    }
  }

  lemma GiveCounts(s: Stats, t: State, id: nat, x: nat)
    requires Inv(t) && (id, x) in t.live && id in t.slabs && id in t.chain && x < |t.slabs[id].freelist| && Accurate(s, t)
    ensures Give(t, id, x).slabs.Keys == t.slabs.Keys
    ensures var d := if StaysActive(t, id) then 0 else 1;
            && Accurate(s.(frees := s.frees + 1, activeObjs := s.activeObjs - 1, activeSlabs := s.activeSlabs - d), Give(t, id, x))
            && |Give(t, id, x).empty| == |t.empty| + d
  {
    hide Inv;
    hide Give;
    hide StaysActive;
    GiveLengths(t, id, x);
    GiveFields(t, id, x);
  }

  lemma ReapCounts(s: Stats, t: State)
    requires |t.empty| >= 2 && t.empty[1] in t.slabs && Accurate(s, t)
    ensures Accurate(s.(totalSlabs := s.totalSlabs - 1, totalObjs := s.totalObjs - t.n), Reap(t))
    ensures Reap(t).slabs.Keys == t.slabs.Keys - {t.empty[1]} && |Reap(t).empty| == |t.empty| - 1
  {
    WithoutOnce(t.empty, t.empty[1]);
    assert Reap(t).slabs.Keys == t.slabs.Keys - {t.empty[1]};
    OneMore(|t.slabs.Keys| - 1, t.n);
  }

  lemma WithoutStep(list: seq<nat>, id: nat, i: nat)
    requires i < |list| && Without(list, id) == list[..i] + Without(list[i..], id)
    ensures list[i] == id ==> Without(list, id) == list[..i] + list[i + 1..]
    ensures list[i] != id ==> Without(list, id) == list[..i + 1] + Without(list[i + 1..], id)
  {
    assert list[i..][1..] == list[i + 1..];
    assert list[..i + 1] == list[..i] + [list[i]];
  }

  lemma ReapFields(t: State)
    requires |t.empty| >= 2
    ensures Reap(t).n == t.n && Reap(t).live == t.live && Reap(t).slabs.Keys == t.slabs.Keys - {t.empty[1]}
    ensures forall id :: id in Reap(t).slabs ==> Reap(t).slabs[id] == t.slabs[id]
  {
  }

  lemma TakeFields(t: State, id: nat)
    requires id in t.slabs && id in t.chain && t.chain[id] != []
    ensures var s := Pop(t.slabs[id]);
            Take(t, id) == State(t.n, t.slabs[id := s], if s.numFree == 0 then [id] + t.full else t.full,
                                 if s.numFree == 0 then Without(t.partial, id) else t.partial, t.empty,
                                 t.chain[id := t.chain[id][1..]], t.live + {(id, t.chain[id][0])})
  {
  }

  lemma ReopenFields(t: State)
    requires t.empty != []
    ensures Reopen(t) == State(t.n, t.slabs, t.full, [t.empty[0]] + t.partial, Without(t.empty, t.empty[0]), t.chain, t.live)
  {
  }

  lemma GiveFields(t: State, id: nat, x: nat)
    requires id in t.slabs && id in t.chain && x < |t.slabs[id].freelist|
    ensures Give(t, id, x).n == t.n && Give(t, id, x).live == t.live - {(id, x)}
    ensures Give(t, id, x).empty == if StaysActive(t, id) then t.empty else [id] + t.empty
    ensures Give(t, id, x).slabs.Keys == t.slabs.Keys
    ensures !StaysActive(t, id) ==> t.n > 1
  {
  }

  lemma AddFields(t: State, id: nat)
    ensures AddSlab(t, id).n == t.n && AddSlab(t, id).empty == t.empty && AddSlab(t, id).live == t.live
    ensures id in AddSlab(t, id).slabs && AddSlab(t, id).slabs[id].head == 0
    ensures id in AddSlab(t, id).chain && |AddSlab(t, id).chain[id]| == t.n && forall i :: 0 <= i < t.n ==> AddSlab(t, id).chain[id][i] == i
  {
  }

  /** The shape a cache computes for its objects holds them. */
  lemma CacheShape(size: nat, align: nat)
    requires Alignment(align) && 0 < size <= MAX_SLAB / 2
    ensures var objectSize := AlignUp(size, align);
            var n := ObjectsPerSlab(objectSize, align);
            && 1 <= n < END && size <= objectSize && Multiple(objectSize, align) && Multiple(Head(align), align)
            && Sized(Shape(n, objectSize, Head(align), SlabBytes(n, objectSize)))
  {
    hide AlignUp;
    hide Multiple;
    hide ObjectsPerSlab;
    hide SlabBytes;
    hide Head;
    LayoutFits(size, align);
  }

  /** Objects and header are padded to the alignment and no further, a slab has as many objects as the sizing rule
      says, and it is no larger than they need. */
  ghost predicate LaidOut(h: Shape, size: nat, align: nat)
    requires align > 0
  {
    && Multiple(h.objectSize, align) && size <= h.objectSize < size + align
    && Multiple(h.head, align) && 64 <= h.head < 64 + align
    && FirstForEight(h.n, h.objectSize, align) && SmallestFor(h.slabSize, 64 + h.n * (h.objectSize + 4))
  }

  lemma ShapeLaidOut(size: nat, align: nat, n: nat, slabSize: nat)
    requires align > 0 && FirstForEight(n, AlignUp(size, align), align) && SmallestFor(slabSize, 64 + n * (AlignUp(size, align) + 4))
    ensures LaidOut(Shape(n, AlignUp(size, align), AlignUp(HEADER, align), slabSize), size, align)
  {
    hide FirstForEight;
    hide SmallestFor;
    hide AlignUp;
    AlignUpFacts(size, align);
    AlignUpFacts(HEADER, align);
  }

  lemma NoSlabs(n: nat)
    requires 1 <= n < END
    ensures var t := State(n, map[], [], [], [], map[], {}); Inv(t) && Accurate(Stats(0, 0, 0, 0, 0, 0), t)
  {
  }

  /** The slab an object is taken from: the first partial one, else the first empty one, else a new one. */
  function Source(t: State, mem: nat): nat {
    if t.partial != [] then t.partial[0] else if t.empty != [] then t.empty[0] else mem
  }

  /** The state once that slab heads the partial list. */
  function Prepared(t: State, mem: nat): State {
    if t.partial != [] then t else if t.empty != [] then Reopen(t) else AddSlab(t, mem)
  }

  /** The object handed out is the one at the head of its slab's chain: the one freed last, or object 0 of a new slab. */
  ghost predicate Serves(t: State, who: (nat, nat), u: State) {
    && who.0 in t.slabs && who.0 in t.chain && t.chain[who.0] != []
    && who.1 == t.slabs[who.0].head && u == Take(t, who.0)
    && (if t.slabs[who.0].numFree == 1 then u.full == [who.0] + t.full && OneOut(t.partial, u.partial, who.0)
        else u.full == t.full && u.partial == t.partial)
  }

  /** One list is the other without one element. */
  ghost predicate OneOut(list: seq<nat>, rest: seq<nat>, x: nat) {
    exists i :: 0 <= i < |list| && list[i] == x && rest == list[..i] + list[i + 1..]
  }

  /** Freeing one more object of the slab leaves it without objects in use next to another such slab. */
  predicate Surplus(noReap: bool, t: State, id: nat)
    requires id in t.slabs
  {
    !noReap && t.n > 1 && t.slabs[id].numFree + 1 == t.n && t.empty != []
  }

  /** The object was put at the head of its slab's chain, and the slab on the list it then belongs to; a surplus
      makes the cache give up the slab that was empty before. */
  ghost predicate Released(noReap: bool, t: State, u: State, id: nat, x: nat, reaped: bool, victim: nat) {
    && id in t.slabs && id in t.chain && (reaped <==> Surplus(noReap, t, id))
    && (reaped ==> victim == t.empty[0] && |Give(t, id, x).empty| >= 2)
    && u == (if reaped then Reap(Give(t, id, x)) else Give(t, id, x))
    && id in u.slabs && u.slabs[id].head == x
    && MovesOnFree(t, Give(t, id, x), id)
  }

  lemma TakenOut(list: seq<nat>, x: nat)
    requires x in list
    ensures OneOut(list, Without(list, x), x)
  {
    hide Without;
    var _ := WithoutAt(list, x);
  }

  /** A full slab goes to the head of the partial list, a slab left without objects in use to the head of the empty
      one, and any other stays where it is. */
  ghost predicate MovesOnFree(t: State, u: State, id: nat)
    requires id in t.slabs
  {
    var free := t.slabs[id].numFree;
    if free == 0 then OneOut(t.full, u.full, id) && u.partial == [id] + t.partial && u.empty == t.empty
    else if free + 1 == t.n then u.full == t.full && OneOut(t.partial, u.partial, id) && u.empty == [id] + t.empty
    else u.full == t.full && u.partial == t.partial && u.empty == t.empty
  }

  lemma FreeMoves(t: State, id: nat, x: nat)
    requires Inv(t) && (id, x) in t.live && id in t.slabs && id in t.chain && x < |t.slabs[id].freelist|
    ensures MovesOnFree(t, Give(t, id, x), id)
  {
    hide Inv;
    hide Without;
    hide OneOut;
    WhichList(t, id);
    if t.slabs[id].numFree == 0 {
      TakenOut(t.full, id);
    } else if t.slabs[id].numFree + 1 == t.n {
      TakenOut(t.partial, id);
    }
  }

  /** The slab an object goes back to is not the one given up. */
  lemma KeepsItsSlab(t: State, id: nat, x: nat)
    requires Inv(t) && (id, x) in t.live && id in t.slabs && id in t.chain && x < |t.slabs[id].freelist|
    ensures var u := Give(t, id, x);
            u.slabs[id].head == x && (!StaysActive(t, id) && t.empty != [] ==> |u.empty| >= 2 && u.empty[1] == t.empty[0] != id)
  {
    hide Inv;
    hide Without;
    GiveFields(t, id, x);
    NotEmpty(t, id, x);
  }

  lemma NotEmpty(t: State, id: nat, x: nat)
    requires Inv(t) && (id, x) in t.live && id in t.slabs
    ensures t.empty != [] ==> t.empty[0] != id
  {
    if t.empty != [] && t.empty[0] == id {
      assert id in t.empty && SlabOk(t, id);
      AllFree(t, id);
    }
  }

  class Cache {
    const shape: Shape
    const noReap: bool
    var slabs: map<nat, SlabRec>
    var full: seq<nat>
    var partial: seq<nat>
    var empty: seq<nat>
    var stats: Stats
    ghost var chain: map<nat, seq<nat>>
    ghost var live: set<(nat, nat)>

    ghost function Now(): State
      reads this
    {
      State(shape.n, slabs, full, partial, empty, chain, live)
    }

    ghost predicate Valid()
      reads this
    {
      && Sized(shape) && Inv(Now()) && Accurate(stats, Now())
      && Spread(shape, slabs.Keys)
      && (!noReap ==> |empty| <= 1)
    }

    /** Create a cache; the caller has rejected sizes of zero and above half the largest slab. */
    constructor (size: nat, align: nat, noReap: bool)
      requires 0 < size <= MAX_SLAB / 2 && Alignment(if align < 8 then 8 else align)
      ensures Valid() && this.noReap == noReap && live == {} && slabs == map[]
      ensures LaidOut(shape, size, if align < 8 then 8 else align)
    {
      hide LaidOut;
      hide FirstForEight;
      hide SmallestFor;
      hide Multiple;
      hide Inv;
      hide Sized;
      hide Accurate;
      hide AlignUp;
      hide SlabBytes;
      hide ObjectsPerSlab;
      var al := if align < 8 then 8 else align;
      var objectSize := AlignUp(size, al);
      CacheShape(size, al);
      var n := CalculateParameters(objectSize, al);
      var slabSize := SlabSize(n, objectSize);
      shape := Shape(n, objectSize, AlignUp(HEADER, al), slabSize);
      ShapeLaidOut(size, al, n, slabSize);
      this.noReap := noReap;
      slabs, full, partial, empty, stats := map[], [], [], [], Stats(0, 0, 0, 0, 0, 0);
      chain, live := map[], {};
      NoSlabs(n);
    }

    /** In a valid cache no two live objects overlap. */
    lemma LiveDisjoint(x: (nat, nat), y: (nat, nat))
      requires Valid() && x in live && y in live && x != y
      ensures shape.Addr(x.0, x.1) + shape.objectSize <= shape.Addr(y.0, y.1) ||
              shape.Addr(y.0, y.1) + shape.objectSize <= shape.Addr(x.0, x.1)
    {
      assert (x.0, x.1) in live && (y.0, y.1) in live;
      ObjectsDisjoint(shape, x.0, x.1, y.0, y.1);
    }

    /** Give up the second empty slab. */
    method ReapSecond() returns (victim: nat)
      requires Sized(shape) && Inv(Now()) && Accurate(stats, Now()) && Spread(shape, slabs.Keys) && |empty| == 2
      modifies this
      ensures victim == old(empty)[1] && Now() == Reap(old(Now()))
      ensures Valid() && live == old(live) && stats.frees == old(stats.frees)
      ensures victim in old(slabs) && slabs.Keys == old(slabs.Keys) - {victim} && forall i: nat :: (victim, i) !in live
    {
      hide Inv;
      hide Accurate;
      hide Sized;
      hide Without;
      hide Spread;
      hide Reap;
      hide Lists;
      ghost var u := Now();
      ReapFields(u);
      ReapKeeps(u);
      ReapCounts(stats, u);
      SpreadLess(shape, slabs.Keys, {empty[1]});
      victim := DropSecond();
      stats := stats.(totalSlabs := stats.totalSlabs - 1, totalObjs := stats.totalObjs - shape.n);
    }

    /** Take the second empty slab out of the cache. */
    method DropSecond() returns (victim: nat)
      requires |empty| >= 2
      modifies this`slabs, this`chain, this`empty
      ensures Now() == Reap(old(Now())) && victim == old(empty[1])
    {
      hide Without;
      ghost var u := Now();
      victim := empty[1];
      empty := Unlink(empty, victim);
      slabs := slabs - {victim};
      chain := chain - {victim};
      assert Now() == Reap(u);
    }

    /** Move the first empty slab to the head of the partial list. */
    method ReopenEmpty() returns (id: nat)
      requires Valid() && empty != []
      modifies this
      ensures live == old(live) && stats.allocs == old(stats.allocs) && stats.frees == old(stats.frees)
      ensures Opened(Now(), id) && Accurate(stats, Now()) && slabs == old(slabs) && |empty| < old(|empty|)
      ensures id == old(empty)[0] && Now() == Reopen(old(Now()))
    {
      hide Inv;
      hide Opened;
      hide Accurate;
      hide Sized;
      hide Without;
      hide Spread;
      hide Reopen;
      ghost var t := Now();
      id := empty[0];
      OpenEmpty(t);
      ReopenCounts(stats, t);
      ReopenFields(t);
      empty := Unlink(empty, id);
      partial := [id] + partial;
      stats := stats.(activeSlabs := stats.activeSlabs + 1);
      assert Now() == Reopen(t);
    }

    /** Link the objects of new memory into a slab at the head of the partial list. */
    method FormatSlab(mem: nat)
      requires shape.n >= 1
      modifies this`slabs, this`chain, this`partial
      ensures Now() == AddSlab(old(Now()), mem)
    {
      hide FreshList;
      hide FreshChain;
      ghost var t := Now();
      var links := NewFreelist(shape.n);
      slabs := slabs[mem := SlabRec(shape.n, links, 0)];
      chain := chain[mem := FreshChain(shape.n)];
      partial := [mem] + partial;
      assert Now() == AddSlab(t, mem);
    }

    /** Build a slab in new memory, all objects free. */
    method CreateSlab(mem: nat)
      requires Valid() && mem !in slabs && Elsewhere(shape, slabs.Keys, mem)
      modifies this
      ensures live == old(live) && stats.allocs == old(stats.allocs) && stats.frees == old(stats.frees)
      ensures Opened(Now(), mem) && Accurate(stats, Now()) && Spread(shape, slabs.Keys) && empty == old(empty)
      ensures slabs.Keys == old(slabs.Keys) + {mem} && Now() == AddSlab(old(Now()), mem)
      ensures mem in slabs && slabs[mem].head == 0 && mem in chain && |chain[mem]| == shape.n
      ensures forall i :: 0 <= i < shape.n ==> chain[mem][i] == i
    {
      hide Inv;
      hide Opened;
      hide Accurate;
      hide Sized;
      hide Spread;
      hide AddSlab;
      hide Elsewhere;
      ghost var t := Now();
      OpenNew(t, mem);
      AddCounts(stats, t, mem);
      AddFields(t, mem);
      SpreadAdd(shape, slabs.Keys, mem);
      SizedFacts(shape);
      FormatSlab(mem);
      stats := stats.(activeSlabs := stats.activeSlabs + 1, totalSlabs := stats.totalSlabs + 1,
                      totalObjs := stats.totalObjs + shape.n);
    }

    /** Put a slab with a free object at the head of the partial list: a partial one if there is any, else an
        empty one, else a new one. */
    method OpenSlab(mem: nat) returns (ok: bool, id: nat)
      requires Valid()
      requires mem != 0 ==> mem !in slabs && Elsewhere(shape, slabs.Keys, mem)
      modifies this
      ensures live == old(live) && stats.allocs == old(stats.allocs) && stats.frees == old(stats.frees)
      ensures !ok <==> mem == 0 && old(Exhausted(Now()))
      ensures !ok ==> Now() == old(Now()) && stats == old(stats)
      ensures ok ==> Opened(Now(), id) && Accurate(stats, Now()) && Spread(shape, slabs.Keys) && |empty| <= old(|empty|)
      ensures slabs.Keys == old(slabs.Keys) + if old(Exhausted(Now())) && mem != 0 then {mem} else {}
      ensures ok ==> id == Source(old(Now()), mem) && Now() == Prepared(old(Now()), mem)
      ensures ok && old(Exhausted(Now())) ==> mem in slabs && slabs[mem].head == 0
    {
      hide Inv;
      hide Opened;
      hide Accurate;
      hide Sized;
      hide Spread;
      hide Exhausted;
      if partial != [] {
        OpenPartial(Now());
        HasFree(Now(), partial[0]);
        return true, partial[0];
      } else if empty != [] {
        HasFree(Now(), empty[0]);
        id := ReopenEmpty();
        return true, id;
      }
      NoOpenSlab(Now());
      if mem == 0 { return false, 0; }
      CreateSlab(mem);
      return true, mem;
    }

    /** Allocate. `mem` is the memory a new slab would get, 0 if there is none. */
    method Alloc(mem: nat) returns (obj: nat, ghost who: (nat, nat))
      requires Valid()
      requires mem != 0 ==> mem !in slabs && Elsewhere(shape, slabs.Keys, mem)
      modifies this
      ensures Valid()
      ensures obj == 0 <==> mem == 0 && old(Exhausted(Now()))
      ensures obj == 0 ==> Now() == old(Now()) && stats == old(stats)
      ensures obj != 0 ==> who !in old(live) && live == old(live) + {who} && obj == shape.Addr(who.0, who.1)
      ensures slabs.Keys == old(slabs.Keys) + if old(Exhausted(Now())) && mem != 0 then {mem} else {}
      ensures obj != 0 ==> stats.allocs == old(stats.allocs) + 1 && stats.frees == old(stats.frees)
      ensures obj != 0 ==> who.0 == Source(old(Now()), mem) && (old(partial) != [] ==> empty == old(empty))
      ensures obj != 0 ==> Serves(Prepared(old(Now()), mem), who, Now())
      ensures obj != 0 && old(Exhausted(Now())) ==> who == (mem, 0)
    {
      hide Inv;
      hide Opened;
      hide Accurate;
      hide Sized;
      hide Spread;
      hide Exhausted;
      who := (0, 0);
      var ok, id := OpenSlab(mem);
      if !ok { return 0, who; }
      var index := TakeObject(id);
      who := (id, index);
      SizedFacts(shape);
      obj := shape.Addr(id, index);
    }

    /** Take the first object of the slab's chain; a slab left without any goes on the full list. */
    method TakeObject(id: nat) returns (index: nat)
      requires Opened(Now(), id) && Accurate(stats, Now())
      modifies this
      ensures Inv(Now()) && Accurate(stats, Now()) && slabs.Keys == old(slabs.Keys) && empty == old(empty)
      ensures (id, index) !in old(live) && live == old(live) + {(id, index)}
      ensures stats.allocs == old(stats.allocs) + 1 && stats.frees == old(stats.frees)
      ensures Serves(old(Now()), (id, index), Now())
    {
      hide Inv;
      hide Opened;
      hide Accurate;
      hide Without;
      hide Take;
      hide OneOut;
      ghost var t := Now();
      TakeKeeps(t, id);
      OpenedIn(t, id);
      TakeCounts(stats, t, id);
      TakeFields(t, id);
      SlabShape(t, id);
      TakenOut(t.partial, id);
      var slab := slabs[id];
      index := slab.head;
      slab := slab.(head := slab.freelist[index], numFree := slab.numFree - 1);
      slabs := slabs[id := slab];
      if slab.numFree == 0 {
        partial := Unlink(partial, id);
        full := [id] + full;
      }
      stats := stats.(allocs := stats.allocs + 1, activeObjs := stats.activeObjs + 1);
      chain := chain[id := chain[id][1..]];
      live := live + {(id, index)};
      assert Now() == Take(t, id);
    }

    /** Take a slab off a list. */
    method Unlink(list: seq<nat>, id: nat) returns (rest: seq<nat>)
      ensures rest == Without(list, id)
    {
      var i := 0;
      while i < |list|
        invariant 0 <= i <= |list| && Without(list, id) == list[..i] + Without(list[i..], id)
      {
        WithoutStep(list, id, i);
        if list[i] == id { return list[..i] + list[i + 1..]; }
        i := i + 1;
      }
      assert list[..i] + Without(list[i..], id) == list;
      return list;
    }

    method NewFreelist(n: nat) returns (f: seq<nat>)
      requires n > 0
      ensures f == FreshList(n)
    {
      f := seq(n, _ => 0);
      var i := 0;
      while i < n
        invariant 0 <= i <= n && |f| == n && forall k :: 0 <= k < i ==> f[k] == k + 1
      {
        f := f[i := i + 1];
        i := i + 1;
      }
      f := f[n - 1 := END];
    }

    /** The first slab on the list whose object area has the address. */
    method Search(list: seq<nat>, obj: nat) returns (found: bool, id: nat)
      ensures found ==> id in list && shape.InArea(id, obj)
      ensures !found ==> forall j :: j in list ==> !shape.InArea(j, obj)
    {
      var k := 0;
      while k < |list|
        invariant 0 <= k <= |list| && forall j :: 0 <= j < k ==> !shape.InArea(list[j], obj)
      {
        if shape.Base(list[k]) <= obj < shape.Base(list[k]) + shape.n * shape.objectSize { return true, list[k]; }
        k := k + 1;
      }
      return false, 0;
    }

    /** The slab with allocated objects in whose object area the address lies. */
    ghost predicate Holds(id: nat, obj: nat)
      reads this
    {
      id in slabs && id !in empty && shape.InArea(id, obj)
    }

    /** Free. An address no slab in use has is ignored; the object must not be free already. */
    method Free(obj: nat) returns (reaped: bool, victim: nat, ghost who: (nat, nat))
      requires Valid()
      requires forall id: nat :: Holds(id, obj) ==> (id, shape.Index(id, obj)) in live
      modifies this
      ensures Valid()
      ensures (forall id: nat :: !old(Holds(id, obj))) ==> Now() == old(Now()) && stats == old(stats) && !reaped
      ensures forall id: nat :: old(Holds(id, obj)) ==> who == (id, shape.Index(id, obj)) && who in old(live) && live == old(live) - {who}
      ensures slabs.Keys == if reaped then old(slabs.Keys) - {victim} else old(slabs.Keys)
      ensures reaped ==> victim in old(slabs) && (forall i: nat :: (victim, i) !in live) && !noReap && shape.n > 1
      ensures forall id: nat :: old(Holds(id, obj)) ==> Released(noReap, old(Now()), Now(), id, shape.Index(id, obj), reaped, victim)
    {
      hide Inv;
      hide Released;
      hide Accurate;
      hide Sized;
      hide Without;
      hide Spread;
      ghost var t := Now();
      ListsCover(t);
      who := (0, 0);
      reaped, victim := false, 0;
      var found, id := Search(full, obj);
      if !found { found, id := Search(partial, obj); }
      if !found { return; }
      InUse(t, id);
      SizedFacts(shape);
      assert old(Holds(id, obj));
      forall j: nat | old(Holds(j, obj)) ensures j == id { OneArea(shape, slabs.Keys, id, j, obj); }
      assert shape.Index(id, obj) == (obj - shape.Base(id)) / shape.objectSize;
      reaped, victim, who := Release(id, (obj - shape.Base(id)) / shape.objectSize);
    }

    /** Put an object of a slab in use back on the slab's chain, and the slab on its list. */
    method PutBack(id: nat, index: nat) returns (emptied: bool)
      requires id in slabs && id in chain && index < |slabs[id].freelist|
      modifies this`slabs, this`chain, this`live, this`full, this`partial, this`empty
      ensures Now() == Give(old(Now()), id, index) && emptied == !StaysActive(old(Now()), id)
    {
      hide Without;
      hide Lists;
      ghost var t := Now();
      var slab := slabs[id];
      slab := SlabRec(slab.numFree + 1, slab.freelist[index := slab.head], index);
      slabs := slabs[id := slab];
      chain := chain[id := [index] + chain[id]];
      live := live - {(id, index)};
      emptied := slab.numFree != 1 && slab.numFree == shape.n;
      if slab.numFree == 1 {
        if id in full {
          full := Unlink(full, id);
          partial := [id] + partial;
        }
      } else if slab.numFree == shape.n {
        partial := Unlink(partial, id);
        empty := [id] + empty;
      }
      assert Now() == Give(t, id, index);
    }

    /** Return an object of a slab in use. */
    method Release(id: nat, index: nat) returns (reaped: bool, victim: nat, ghost who: (nat, nat))
      requires Valid() && (id, index) in live
      modifies this
      ensures Valid() && who == (id, index) && live == old(live) - {who}
      ensures slabs.Keys == if reaped then old(slabs.Keys) - {victim} else old(slabs.Keys)
      ensures reaped ==> victim in old(slabs) && (forall i: nat :: (victim, i) !in live) && !noReap && shape.n > 1
      ensures Released(noReap, old(Now()), Now(), id, index, reaped, victim)
    {
      hide Inv;
      hide Accurate;
      hide Sized;
      hide Without;
      hide Spread;
      hide Lists;
      hide Give;
      hide Reap;
      hide MovesOnFree;
      ghost var t := Now();
      who := (id, index);
      reaped, victim := false, 0;
      GiveKeeps(t, id, index);
      SlabShape(t, id);
      GiveCounts(stats, t, id, index);
      GiveFields(t, id, index);
      KeepsItsSlab(t, id, index);
      FreeMoves(t, id, index);
      var emptied := PutBack(id, index);
      stats := stats.(frees := stats.frees + 1, activeObjs := stats.activeObjs - 1,
                      activeSlabs := stats.activeSlabs - if emptied then 1 else 0);
      if emptied && !noReap && |empty| >= 2 {
        ReapFields(Now());
        victim := ReapSecond();
        reaped := true;
      }
    }
  }
}
