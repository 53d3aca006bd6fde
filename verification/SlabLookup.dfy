/** The hash index from addresses to slab caches.

    Every page that a slab's recorded range touches has an entry in the bucket its
    number hashes to. A chain is a sequence, head first. Pages are numbered;
    `size_t` counters wrap at 64 bits.
 */
module SlabLookup {
  import opened Bits
  import opened Options
  import opened SlabHash

  const WORD: nat := 0x1_0000_0000_0000_0000

  /** What the index reads of a slab: its address, object area, size and cache. */
  datatype Slab = Slab(id: nat, base: nat, size: nat, cache: nat) {
    predicate Covers(addr: nat) { base <= addr < base + size }
    predicate Addressable() { size > 0 && base + size <= WORD - 4096 }
    function First(): nat { base / 4096 }
    function Last(): int { (base + size - 1) / 4096 }
    function Span(): int { Last() - First() + 1 }
  }

  datatype Entry = Entry(page: nat, start: nat, end: nat, cache: nat, slab: nat)

  function EntryFor(s: Slab, page: nat): Entry {
    Entry(page, s.base, s.base + s.size, s.cache, s.id)
  }

  // -------------------------------------------------------------- what the table should hold

  /** A slab under track and how many of its pages, from the first on, have an entry. */
  datatype Track = Track(slab: Slab, pages: nat)

  ghost predicate TracksOk(tracked: map<nat, Track>) {
    forall id :: id in tracked ==>
      tracked[id].slab.id == id && tracked[id].slab.Addressable() && tracked[id].pages <= tracked[id].slab.Span()
  }

  /** The entry belongs in the table. */
  ghost predicate Expected(tracked: map<nat, Track>, e: Entry) {
    && e.slab in tracked
    && e == EntryFor(tracked[e.slab].slab, e.page)
    && tracked[e.slab].slab.First() <= e.page < tracked[e.slab].slab.First() + tracked[e.slab].pages
  }

  ghost predicate Belongs(tracked: map<nat, Track>, mask: nat, h: nat, e: Entry) {
    Expected(tracked, e) && Hash(e.page, mask) == h
  }

  /** Every bucket holds each entry that belongs there once, and nothing else. */
  ghost predicate Indexed(buckets: seq<seq<Entry>>, mask: nat, tracked: map<nat, Track>) {
    && |buckets| == mask + 1
    && forall h, e :: 0 <= h < |buckets| ==>
         multiset(buckets[h])[e] == if Belongs(tracked, mask, h, e) then 1 else 0
  }

  function Total(buckets: seq<seq<Entry>>): nat {
    if buckets == [] then 0 else Total(buckets[..|buckets| - 1]) + |buckets[|buckets| - 1]|
  }

  lemma {:induction false} TotalUpdate(buckets: seq<seq<Entry>>, h: nat, chain: seq<Entry>)
    requires h < |buckets|
    ensures Total(buckets[h := chain]) == Total(buckets) - |buckets[h]| + |chain|
  {
    var n := |buckets| - 1;
    if h == n {
      assert buckets[h := chain][..n] == buckets[..n];
    } else {
      assert buckets[h := chain][..n] == buckets[..n][h := chain];
      TotalUpdate(buckets[..n], h, chain);
    }
  }

  lemma {:induction false} TotalEmpty(buckets: seq<seq<Entry>>)
    requires forall h :: 0 <= h < |buckets| ==> buckets[h] == []
    ensures Total(buckets) == 0
  {
    if buckets != [] { TotalEmpty(buckets[..|buckets| - 1]); }
  }

  /** Tracking none of a slab's pages asks for no entry. */
  lemma BeginTrack(buckets: seq<seq<Entry>>, mask: nat, tracked: map<nat, Track>, s: Slab)
    requires Indexed(buckets, mask, tracked) && s.id !in tracked
    ensures Indexed(buckets, mask, tracked[s.id := Track(s, 0)])
  {
    hide Hash;
    var t := tracked[s.id := Track(s, 0)];
    forall h, e | 0 <= h < |buckets| ensures Belongs(t, mask, h, e) <==> Belongs(tracked, mask, h, e) {}
  }

  /** Pushing the next page's entry on its chain. */
  lemma PushPage(buckets: seq<seq<Entry>>, mask: nat, tracked: map<nat, Track>, s: Slab, n: nat, h: nat)
    requires Indexed(buckets, mask, tracked) && s.id in tracked && tracked[s.id] == Track(s, n)
    requires h == Hash(s.First() + n, mask)
    ensures Indexed(buckets[h := [EntryFor(s, s.First() + n)] + buckets[h]], mask, tracked[s.id := Track(s, n + 1)])
  {
    hide Hash;
    var x := EntryFor(s, s.First() + n);
    var t := tracked[s.id := Track(s, n + 1)];
    var b := buckets[h := [x] + buckets[h]];
    forall g, e | 0 <= g < |b| ensures multiset(b[g])[e] == if Belongs(t, mask, g, e) then 1 else 0 {
      assert Belongs(t, mask, g, e) <==> Belongs(tracked, mask, g, e) || (g == h && e == x);
      assert !Belongs(tracked, mask, g, x);
    }
  }

  // -------------------------------------------------------------- removal

  /** The chain without the first entry of the slab. */
  function Drop(chain: seq<Entry>, id: nat): seq<Entry> {
    if chain == [] then []
    else if chain[0].slab == id then chain[1..]
    else [chain[0]] + Drop(chain[1..], id)
  }

  function CountOf(chain: seq<Entry>, id: nat): nat {
    if chain == [] then 0 else (if chain[0].slab == id then 1 else 0) + CountOf(chain[1..], id)
  }

  lemma {:induction false} DropCounts(chain: seq<Entry>, id: nat)
    ensures CountOf(Drop(chain, id), id) == if CountOf(chain, id) > 0 then CountOf(chain, id) - 1 else 0
    ensures |Drop(chain, id)| == if CountOf(chain, id) > 0 then |chain| - 1 else |chain|
    ensures CountOf(chain, id) == 0 ==> Drop(chain, id) == chain
    ensures forall e: Entry :: e.slab != id ==> multiset(Drop(chain, id))[e] == multiset(chain)[e]
  {
    if chain != [] {
      DropCounts(chain[1..], id);
      var d := Drop(chain[1..], id);
      assert ([chain[0]] + d)[1..] == d;
    }
    DropOthers(chain, id);
  }

  lemma {:induction false} DropOthers(chain: seq<Entry>, id: nat)
    ensures forall e: Entry :: e.slab != id ==> multiset(Drop(chain, id))[e] == multiset(chain)[e]
  {
    if chain != [] {
      assert chain == [chain[0]] + chain[1..];
      if chain[0].slab != id { DropOthers(chain[1..], id); }
    }
  }

  /** The entries of the slab's first `n` pages that hash to the bucket. */
  ghost function Mine(s: Slab, mask: nat, h: nat, n: nat): set<Entry> {
    if n == 0 then {}
    else Mine(s, mask, h, n - 1) +
         if Hash(s.First() + n - 1, mask) == h then {EntryFor(s, s.First() + n - 1)} else {}
  }

  lemma {:induction false} InMine(s: Slab, mask: nat, h: nat, n: nat, e: Entry)
    ensures e in Mine(s, mask, h, n) <==>
            e == EntryFor(s, e.page) && s.First() <= e.page < s.First() + n && Hash(e.page, mask) == h
  {
    hide Hash;
    if n > 0 { InMine(s, mask, h, n - 1, e); }
  }

  lemma MineGrows(s: Slab, mask: nat, h: nat, n: nat)
    ensures |Mine(s, mask, h, n + 1)| == |Mine(s, mask, h, n)| + if Hash(s.First() + n, mask) == h then 1 else 0
  {
    hide Hash;
    InMine(s, mask, h, n, EntryFor(s, s.First() + n));
  }

  lemma {:induction false} MineMonotone(s: Slab, mask: nat, h: nat, m: nat, n: nat)
    requires m <= n
    ensures |Mine(s, mask, h, m)| <= |Mine(s, mask, h, n)|
    decreases n
  {
    hide Hash;
    if m < n {
      MineMonotone(s, mask, h, m, n - 1);
      MineGrows(s, mask, h, n - 1);
    }
  }

  function Only(chain: seq<Entry>, id: nat): seq<Entry> {
    if chain == [] then [] else (if chain[0].slab == id then [chain[0]] else []) + Only(chain[1..], id)
  }

  lemma {:induction false} OnlyCounts(chain: seq<Entry>, id: nat)
    ensures |Only(chain, id)| == CountOf(chain, id)
    ensures forall e: Entry :: multiset(Only(chain, id))[e] == if e.slab == id then multiset(chain)[e] else 0
  {
    if chain != [] {
      OnlyCounts(chain[1..], id);
      assert chain == [chain[0]] + chain[1..];
    }
  }

  /** A bucket holds as many entries of a slab as that slab has tracked pages hashing there. */
  lemma ChainCount(buckets: seq<seq<Entry>>, mask: nat, tracked: map<nat, Track>, id: nat, h: nat)
    requires Indexed(buckets, mask, tracked) && TracksOk(tracked) && id in tracked && h <= mask
    ensures CountOf(buckets[h], id) == |Mine(tracked[id].slab, mask, h, tracked[id].pages)|
  {
    hide Hash;
    var s, n := tracked[id].slab, tracked[id].pages;
    OnlyCounts(buckets[h], id);
    var only, mine := multiset(Only(buckets[h], id)), Mine(s, mask, h, n);
    forall e ensures only[e] == multiset(mine)[e] {
      InMine(s, mask, h, n, e);
      assert multiset(buckets[h])[e] == if Belongs(tracked, mask, h, e) then 1 else 0;
    }
    assert only == multiset(mine);
  }

  /** The table part-way through a removal: `k` of the slab's pages have been visited. */
  ghost predicate Removing(buckets: seq<seq<Entry>>, mask: nat, tracked: map<nat, Track>, id: nat, k: nat)
    requires id in tracked
  {
    && |buckets| == mask + 1
    && (forall h :: 0 <= h <= mask ==> CountOf(buckets[h], id) == Left(tracked[id], mask, h, k))
    && forall h, e: Entry :: 0 <= h <= mask && e.slab != id ==>
         multiset(buckets[h])[e] == if Belongs(tracked, mask, h, e) then 1 else 0
  }

  ghost function Left(t: Track, mask: nat, h: nat, k: nat): nat {
    var had, gone := |Mine(t.slab, mask, h, t.pages)|, |Mine(t.slab, mask, h, k)|;
    if gone <= had then had - gone else 0
  }

  lemma LeftStep(t: Track, mask: nat, h: nat, k: nat)
    ensures Left(t, mask, h, k + 1) ==
            if Hash(t.slab.First() + k, mask) == h && Left(t, mask, h, k) > 0 then Left(t, mask, h, k) - 1
            else Left(t, mask, h, k)
  {
    hide Hash;
    hide Mine;
    MineGrows(t.slab, mask, h, k);
  }

  lemma RemovingStarts(buckets: seq<seq<Entry>>, mask: nat, tracked: map<nat, Track>, id: nat)
    requires Indexed(buckets, mask, tracked) && TracksOk(tracked) && id in tracked
    ensures Removing(buckets, mask, tracked, id, 0)
  {
    hide Hash;
    forall h | 0 <= h <= mask ensures CountOf(buckets[h], id) == Left(tracked[id], mask, h, 0) {
      ChainCount(buckets, mask, tracked, id, h);
      assert Mine(tracked[id].slab, mask, h, 0) == {};
    }
  }

  lemma RemovingStep(buckets: seq<seq<Entry>>, mask: nat, tracked: map<nat, Track>, id: nat, k: nat, h: nat)
    requires id in tracked && Removing(buckets, mask, tracked, id, k)
    requires h == Hash(tracked[id].slab.First() + k, mask)
    ensures Removing(buckets[h := Drop(buckets[h], id)], mask, tracked, id, k + 1)
  {
    hide Hash;
    hide Left;
    hide CountOf;
    hide Drop;
    hide Belongs;
    DropCounts(buckets[h], id);
    var b := buckets[h := Drop(buckets[h], id)];
    forall g | 0 <= g <= mask ensures CountOf(b[g], id) == Left(tracked[id], mask, g, k + 1) {
      LeftStep(tracked[id], mask, g, k);
    }
  }

  lemma {:induction false} NoneLeft(chain: seq<Entry>, id: nat, e: Entry)
    requires CountOf(chain, id) == 0 && e.slab == id
    ensures multiset(chain)[e] == 0
  {
    if chain != [] {
      NoneLeft(chain[1..], id, e);
      assert chain == [chain[0]] + chain[1..];
    }
  }

  /** Visiting all pages of the slab leaves exactly the other slabs' entries. */
  lemma RemovingEnds(buckets: seq<seq<Entry>>, mask: nat, tracked: map<nat, Track>, id: nat)
    requires TracksOk(tracked) && id in tracked
    requires Removing(buckets, mask, tracked, id, tracked[id].slab.Span())
    ensures Indexed(buckets, mask, tracked - {id})
  {
    hide Hash;
    var t := tracked - {id};
    forall h, e | 0 <= h < |buckets| ensures multiset(buckets[h])[e] == if Belongs(t, mask, h, e) then 1 else 0 {
      if e.slab == id {
        MineMonotone(tracked[id].slab, mask, h, tracked[id].pages, tracked[id].slab.Span());
        NoneLeft(buckets[h], id, e);
      } else {
        assert Belongs(t, mask, h, e) <==> Belongs(tracked, mask, h, e);
      }
    }
  }

  // -------------------------------------------------------------- rehashing

  function Flat(buckets: seq<seq<Entry>>): seq<Entry> {
    if buckets == [] then [] else Flat(buckets[..|buckets| - 1]) + buckets[|buckets| - 1]
  }

  lemma {:induction false} FlatCount(buckets: seq<seq<Entry>>, mask: nat, tracked: map<nat, Track>, i: nat, e: Entry)
    requires Indexed(buckets, mask, tracked) && i <= |buckets|
    ensures multiset(Flat(buckets[..i]))[e] == if Expected(tracked, e) && Hash(e.page, mask) < i then 1 else 0
  {
    hide Hash;
    if i > 0 {
      FlatCount(buckets, mask, tracked, i - 1, e);
      assert buckets[..i][..i - 1] == buckets[..i - 1];
      assert multiset(buckets[i - 1])[e] == if Belongs(tracked, mask, i - 1, e) then 1 else 0;
    }
  }

  lemma {:induction false} FlatTotal(buckets: seq<seq<Entry>>)
    ensures |Flat(buckets)| == Total(buckets)
  {
    if buckets != [] { FlatTotal(buckets[..|buckets| - 1]); }
  }

  /** The new buckets hold what has been taken from the old ones, each in its place. */
  ghost predicate Rehashed(buckets: seq<seq<Entry>>, mask: nat, taken: seq<Entry>) {
    && |buckets| == mask + 1
    && Total(buckets) == |taken|
    && forall h, e :: 0 <= h < |buckets| ==>
         multiset(buckets[h])[e] == if Hash(e.page, mask) == h then multiset(taken)[e] else 0
  }

  lemma RehashedSize(buckets: seq<seq<Entry>>, mask: nat, taken: seq<Entry>)
    requires Rehashed(buckets, mask, taken)
    ensures |buckets| == mask + 1
  {
  }

  lemma RehashStep(buckets: seq<seq<Entry>>, mask: nat, taken: seq<Entry>, e: Entry)
    requires Rehashed(buckets, mask, taken)
    ensures Rehashed(buckets[Hash(e.page, mask) := [e] + buckets[Hash(e.page, mask)]], mask, taken + [e])
  {
    hide Hash;
    TotalUpdate(buckets, Hash(e.page, mask), [e] + buckets[Hash(e.page, mask)]);
  }

  lemma RehashEnds(before: seq<seq<Entry>>, mask: nat, after: seq<seq<Entry>>, wider: nat, tracked: map<nat, Track>)
    requires Indexed(before, mask, tracked) && Rehashed(after, wider, Flat(before))
    ensures Indexed(after, wider, tracked) && Total(after) == Total(before)
  {
    hide Hash;
    FlatTotal(before);
    assert before[..|before|] == before;
    forall h, e | 0 <= h < |after| ensures multiset(after[h])[e] == if Belongs(tracked, wider, h, e) then 1 else 0 {
      FlatCount(before, mask, tracked, |before|, e);
    }
  }

  // -------------------------------------------------------------- linear search

  /** The caches of all tracked slabs whose recorded range has the address. */
  ghost function Owners(tracked: map<nat, Track>, addr: nat): set<nat> {
    set id | id in tracked && tracked[id].slab.Covers(addr) :: tracked[id].slab.cache
  }

  /** Every page of every tracked slab has its entry. */
  ghost predicate Whole(tracked: map<nat, Track>)
    requires TracksOk(tracked)
  {
    forall id :: id in tracked ==> tracked[id].pages == tracked[id].slab.Span()
  }

  /** The slab has an entry for the page of the address. */
  ghost predicate Listed(t: Track, addr: nat) {
    t.slab.Covers(addr) && addr / 4096 < t.slab.First() + t.pages
  }

  lemma CoveredPage(s: Slab, addr: nat)
    requires s.Addressable() && s.Covers(addr)
    ensures s.First() <= addr / 4096 < s.First() + s.Span()
  {
    DivMonotone(s.base, addr, 4096);
    DivMonotone(addr, s.base + s.size - 1, 4096);
  }

  function SpanSum(slabs: seq<Slab>): int {
    if slabs == [] then 0 else SpanSum(slabs[..|slabs| - 1]) + slabs[|slabs| - 1].Span()
  }

  /** The cache of the first entry of a chain whose recorded range has the address. */
  function FirstCovering(chain: seq<Entry>, addr: nat): Option<nat> {
    if chain == [] then None
    else if chain[0].start <= addr < chain[0].end then Some(chain[0].cache)
    else FirstCovering(chain[1..], addr)
  }

  /** New slabs: addressable, each with an id of its own. */
  ghost predicate Fresh(tracked: map<nat, Track>, slabs: seq<Slab>) {
    && (forall i :: 0 <= i < |slabs| ==> slabs[i].Addressable() && slabs[i].id !in tracked)
    && forall i, j :: 0 <= i < j < |slabs| ==> slabs[i].id != slabs[j].id
  }

  /** The tracked slabs grew by exactly the given ones; the others are as they were. */
  ghost predicate Adds(before: map<nat, Track>, after: map<nat, Track>, slabs: seq<Slab>) {
    && (forall id :: id in before ==> id in after && after[id] == before[id])
    && (forall i :: 0 <= i < |slabs| ==> slabs[i].id in after && after[slabs[i].id].slab == slabs[i])
    && forall id :: id in after && id !in before ==> exists i :: 0 <= i < |slabs| && slabs[i].id == id
  }

  lemma AddsMore(a: map<nat, Track>, b: map<nat, Track>, c: map<nat, Track>, xs: seq<Slab>, ys: seq<Slab>)
    requires Adds(a, b, xs) && Adds(b, c, ys)
    ensures Adds(a, c, xs + ys)
  {
    forall id | id in c && id !in a ensures exists i :: 0 <= i < |xs + ys| && (xs + ys)[i].id == id {
      if id in b {
        var i :| 0 <= i < |xs| && xs[i].id == id;
        assert (xs + ys)[i].id == id;
      } else {
        var i :| 0 <= i < |ys| && ys[i].id == id;
        assert (xs + ys)[|xs| + i].id == id;
      }
    }
  }

  // -------------------------------------------------------------- true and recorded ranges

  /** Where a slab lies: its pages start at `mem`, the object area `head` bytes further on.
      The recorded range has the slab's whole size but starts at the object area. */
  datatype Placed = Placed(id: nat, mem: nat, size: nat, head: nat, cache: nat) {
    function Recorded(): Slab { Slab(id, mem + head, size, cache) }
    predicate Ok() { mem % 4096 == 0 && size % 4096 == 0 && 0 < head <= 4096 && head < size }
    predicate Owns(addr: nat) { mem + head <= addr < mem + size }
  }

  ghost predicate Apart(a: Placed, b: Placed) {
    a.mem + a.size <= b.mem || b.mem + b.size <= a.mem
  }

  /** Two slabs in disjoint memory: the second is mistaken for the first at some address
      exactly when the first lies directly below it and has the longer header. */
  lemma RecordedOverlap(a: Placed, b: Placed)
    requires a.Ok() && b.Ok() && Apart(a, b)
    ensures (exists addr :: b.Owns(addr) && a.Recorded().Covers(addr))
            <==> a.mem + a.size == b.mem && b.head < a.head
  {
    if a.mem + a.size == b.mem && b.head < a.head {
      assert b.Owns(b.mem + b.head) && a.Recorded().Covers(b.mem + b.head);
    }
    if b.mem + b.size <= a.mem {
      assert forall addr :: b.Owns(addr) ==> !a.Recorded().Covers(addr);
    } else if a.mem + a.size != b.mem {
      assert b.mem >= a.mem + a.size + 4096;
    }
  }

  /** The tracked slabs lie where `where` says, in disjoint memory. */
  ghost predicate PlacedAs(tracked: map<nat, Track>, where: map<nat, Placed>) {
    && where.Keys == tracked.Keys
    && (forall id :: id in where ==> where[id].Ok() && tracked[id].slab == where[id].Recorded())
    && forall i, j :: i in where && j in where && i != j ==> Apart(where[i], where[j])
  }

  /** No slab of another cache with a longer header lies directly below the slab. */
  ghost predicate Unshadowed(where: map<nat, Placed>, id: nat)
    requires id in where
  {
    forall j :: j in where && where[j].mem + where[j].size == where[id].mem && where[id].head < where[j].head
      ==> where[j].cache == where[id].cache
  }

  /** Linear search names the true owner of every address of a slab's object area, and no other cache, if
      and only if the slab is unshadowed. The index then does too; for a shadowed slab it answers with
      whichever entry comes first in the chain. */
  lemma TrueOwner(tracked: map<nat, Track>, where: map<nat, Placed>, id: nat)
    requires PlacedAs(tracked, where) && id in where
    ensures (forall addr :: where[id].Owns(addr) ==> Owners(tracked, addr) == {where[id].cache})
            <==> Unshadowed(where, id)
  {
    var me := where[id];
    if Unshadowed(where, id) {
      forall addr | me.Owns(addr) ensures Owners(tracked, addr) == {me.cache} {
        assert tracked[id].slab.Covers(addr);
        forall j | j in tracked && tracked[j].slab.Covers(addr) ensures tracked[j].slab.cache == me.cache {
          if j != id { RecordedOverlap(where[j], me); }
        }
      }
    } else {
      var j :| j in where && where[j].mem + where[j].size == me.mem && me.head < where[j].head && where[j].cache != me.cache;
      var addr := me.mem + me.head;
      assert me.Owns(addr) && tracked[j].slab.Covers(addr);
      assert where[j].cache in Owners(tracked, addr);
    }
  }

  // -------------------------------------------------------------- bookkeeping of a run

  ghost function Ids(slabs: seq<Slab>): set<nat> {
    set i | 0 <= i < |slabs| :: slabs[i].id
  }

  lemma IdsNext(slabs: seq<Slab>, i: nat)
    requires i < |slabs|
    ensures Ids(slabs[..i + 1]) == Ids(slabs[..i]) + {slabs[i].id}
  {
    var a, b := slabs[..i], slabs[..i + 1];
    assert b == a + [slabs[i]];
    forall id | id in Ids(b) ensures id in Ids(a) + {slabs[i].id} {
      var j :| 0 <= j < |b| && b[j].id == id;
      if j < i { assert a[j].id == id; }
    }
    forall id | id in Ids(a) ensures id in Ids(b) {
      var j :| 0 <= j < |a| && a[j].id == id;
      assert b[j].id == id;
    }
    assert b[i].id == slabs[i].id;
  }

  /** The slabs are as they are tracked, if they are. */
  ghost predicate Matching(tracked: map<nat, Track>, slabs: seq<Slab>) {
    forall i :: 0 <= i < |slabs| ==> slabs[i].Addressable() && (slabs[i].id in tracked ==> tracked[slabs[i].id].slab == slabs[i])
  }

  /** Slabs with one address are one slab. */
  ghost predicate Agree(xs: seq<Slab>, ys: seq<Slab>) {
    forall i, j :: 0 <= i < |xs| && 0 <= j < |ys| && xs[i].id == ys[j].id ==> xs[i] == ys[j]
  }

  lemma MatchingAfter(a: map<nat, Track>, b: map<nat, Track>, xs: seq<Slab>, slabs: seq<Slab>)
    requires Matching(a, slabs) && Adds(a, b, xs) && Agree(xs, slabs)
    ensures Matching(b, slabs)
  {
    forall i | 0 <= i < |slabs| && slabs[i].id in b ensures b[slabs[i].id].slab == slabs[i] {
      if slabs[i].id !in a {
        var j :| 0 <= j < |xs| && xs[j].id == slabs[i].id;
        assert b[xs[j].id].slab == xs[j];
      }
    }
  }

  lemma AddsNone(t: map<nat, Track>)
    ensures Adds(t, t, [])
  {
  }

  lemma AddsOne(t: map<nat, Track>, s: Slab, n: nat)
    requires s.id !in t
    ensures Adds(t, t[s.id := Track(s, n)], [s])
  {
    assert [s][0].id == s.id;
  }

  lemma FreshPart(tracked: map<nat, Track>, xs: seq<Slab>, ys: seq<Slab>)
    requires Fresh(tracked, xs + ys)
    ensures Fresh(tracked, xs) && Fresh(tracked, ys)
  {
    forall i | 0 <= i < |xs| ensures xs[i] == (xs + ys)[i] {}
    forall i | 0 <= i < |ys| ensures ys[i] == (xs + ys)[|xs| + i] {}
  }

  lemma FreshRest(a: map<nat, Track>, b: map<nat, Track>, xs: seq<Slab>, ys: seq<Slab>)
    requires Fresh(a, xs + ys) && Adds(a, b, xs)
    ensures Fresh(b, ys)
  {
    forall i | 0 <= i < |xs| ensures xs[i] == (xs + ys)[i] {}
    forall i | 0 <= i < |ys| ensures ys[i] == (xs + ys)[|xs| + i] {}
  }

  lemma StillFresh(a: map<nat, Track>, b: map<nat, Track>, all: seq<Slab>, xs: seq<Slab>, s: Slab)
    requires Fresh(a, all + [s]) && xs <= all && Adds(a, b, xs)
    ensures s.id !in b
  {
    assert (all + [s])[|all|] == s;
    assert forall i :: 0 <= i < |xs| ==> xs[i] == (all + [s])[i];
  }

  lemma FreshNext(a: map<nat, Track>, b: map<nat, Track>, slabs: seq<Slab>, i: nat)
    requires Fresh(a, slabs) && i < |slabs| && Adds(a, b, slabs[..i])
    ensures slabs[i].id !in b && slabs[i].Addressable()
  {
    assert slabs[i].id !in a;
  }

  lemma TracksPut(t: map<nat, Track>, s: Slab, n: nat)
    requires TracksOk(t) && s.Addressable() && n <= s.Span()
    ensures TracksOk(t[s.id := Track(s, n)])
  {
  }

  lemma IndexedSize(buckets: seq<seq<Entry>>, mask: nat, tracked: map<nat, Track>)
    requires Indexed(buckets, mask, tracked)
    ensures |buckets| == mask + 1
  {
  }

  lemma InChain(buckets: seq<seq<Entry>>, mask: nat, tracked: map<nat, Track>, h: nat, e: Entry)
    requires Indexed(buckets, mask, tracked) && Belongs(tracked, mask, h, e)
    ensures e in buckets[h]
  {
    assert multiset(buckets[h])[e] == 1;
  }

  /** Removal finds nothing in the chains of a slab that is not tracked. */
  lemma Untracked(buckets: seq<seq<Entry>>, mask: nat, tracked: map<nat, Track>, id: nat, h: nat)
    requires Indexed(buckets, mask, tracked) && id !in tracked && h <= mask
    ensures CountOf(buckets[h], id) == 0 && Drop(buckets[h], id) == buckets[h]
  {
    OnlyCounts(buckets[h], id);
    DropCounts(buckets[h], id);
    var only := Only(buckets[h], id);
    forall e ensures multiset(only)[e] == 0 {
      assert multiset(buckets[h])[e] == if Belongs(tracked, mask, h, e) then 1 else 0;
    }
    assert only != [] ==> multiset(only)[only[0]] > 0;
  }

  /** The counter is the number of entries less those it missed, modulo the word size. */
  ghost predicate CountedAs(count: nat, total: nat, missed: int) {
    count == (total - missed) % WORD
  }

  lemma CountUp(count: nat, total: nat, missed: int)
    requires CountedAs(count, total, missed)
    ensures CountedAs(Wrap(count + 1), total + 1, missed)
  {
  }

  lemma CountDown(count: nat, total: nat, missed: int)
    requires CountedAs(count, total, missed) && total > 0
    ensures CountedAs(if count == 0 then WORD - 1 else count - 1, total - 1, missed)
  {
  }

  /** The value a 64-bit counter shows. */
  function Wrap(n: int): nat { n % WORD }

  lemma WrapAdd(n: int, k: int)
    ensures Wrap(Wrap(n) + k) == Wrap(n + k)
  {
  }

  lemma CountBound(count: nat, total: nat, missed: int)
    requires CountedAs(count, total, missed)
    ensures Wrap(count) == count
  {
  }

  /** A count taken while the table held less misses the difference. */
  lemma CountTaken(count: nat, held: nat, missed: int, total: nat)
    requires CountedAs(count, held, missed)
    ensures CountedAs(count, total, missed + total - held)
  {
  }

  // -------------------------------------------------------------- the order of the chains

  /** The chain without the entries of a slab. */
  function Others(chain: seq<Entry>, id: nat): seq<Entry> {
    if chain == [] then [] else if chain[0].slab == id then Others(chain[1..], id) else [chain[0]] + Others(chain[1..], id)
  }

  lemma {:induction false} OthersDrop(chain: seq<Entry>, id: nat)
    ensures Others(Drop(chain, id), id) == Others(chain, id)
    ensures CountOf(chain, id) == 0 ==> Others(chain, id) == chain
  {
    if chain != [] {
      OthersDrop(chain[1..], id);
      if chain[0].slab != id { assert Drop(chain, id)[1..] == Drop(chain[1..], id); }
    }
  }

  /** The entries of the sequence that hash to the bucket, last one first. */
  ghost function Hits(es: seq<Entry>, mask: nat, h: nat): seq<Entry> {
    if es == [] then []
    else
      var n := |es| - 1;
      (if Hash(es[n].page, mask) == h then [es[n]] else []) + Hits(es[..n], mask, h)
  }

  /** In front of each old chain stand the entries that hash there, last one first. */
  ghost predicate InFront(before: seq<seq<Entry>>, after: seq<seq<Entry>>, mask: nat, es: seq<Entry>) {
    |before| == |after| == mask + 1 && forall h :: 0 <= h <= mask ==> after[h] == Hits(es, mask, h) + before[h]
  }

  lemma FrontNone(b: seq<seq<Entry>>, mask: nat)
    requires |b| == mask + 1
    ensures InFront(b, b, mask, [])
  {
    forall h | 0 <= h <= mask ensures b[h] == Hits([], mask, h) + b[h] { assert Hits([], mask, h) == []; }
  }

  lemma FrontNext(a: seq<seq<Entry>>, b: seq<seq<Entry>>, mask: nat, es: seq<Entry>, e: Entry)
    requires InFront(a, b, mask, es)
    ensures InFront(a, b[Hash(e.page, mask) := [e] + b[Hash(e.page, mask)]], mask, es + [e])
  {
    hide Hash;
    var c := b[Hash(e.page, mask) := [e] + b[Hash(e.page, mask)]];
    forall h | 0 <= h <= mask ensures c[h] == Hits(es + [e], mask, h) + a[h] {
      assert (es + [e])[..|es|] == es;
      assert b[h] == Hits(es, mask, h) + a[h];
    }
  }

  lemma FrontConcat(a: seq<seq<Entry>>, b: seq<seq<Entry>>, c: seq<seq<Entry>>, mask: nat, es: seq<Entry>, fs: seq<Entry>)
    requires InFront(a, b, mask, es) && InFront(b, c, mask, fs)
    ensures InFront(a, c, mask, es + fs)
  {
    hide Hash;
    forall h | 0 <= h <= mask ensures c[h] == Hits(es + fs, mask, h) + a[h] {
      HitsConcat(es, fs, mask, h);
      assert c[h] == Hits(fs, mask, h) + (Hits(es, mask, h) + a[h]);
    }
  }

  lemma {:induction false} HitsConcat(es: seq<Entry>, fs: seq<Entry>, mask: nat, h: nat)
    ensures Hits(es + fs, mask, h) == Hits(fs, mask, h) + Hits(es, mask, h)
    decreases |fs|
  {
    hide Hash;
    if fs == [] {
      assert es + fs == es;
    } else {
      var n := |fs| - 1;
      assert (es + fs)[..|es + fs| - 1] == es + fs[..n] && (es + fs)[|es + fs| - 1] == fs[n];
      HitsConcat(es, fs[..n], mask, h);
      Regroup(if Hash(fs[n].page, mask) == h then [fs[n]] else [], Hits(fs[..n], mask, h), Hits(es, mask, h));
    }
  }

  lemma Regroup(a: seq<Entry>, b: seq<Entry>, c: seq<Entry>)
    ensures a + (b + c) == (a + b) + c
  {
  }

  /** The entries of a slab's first `n` pages, in order. */
  ghost function EntriesOf(s: Slab, n: nat): seq<Entry> {
    seq(n, (i: nat) => EntryFor(s, s.First() + i))
  }

  lemma NoEntries(s: Slab)
    ensures EntriesOf(s, 0) == []
  {
  }

  lemma EntriesNext(s: Slab, n: nat)
    ensures EntriesOf(s, n + 1) == EntriesOf(s, n) + [EntryFor(s, s.First() + n)]
  {
  }

  lemma {:induction false} HitsOfSlab(s: Slab, n: nat, mask: nat, h: nat, k: nat)
    requires k < n && Hash(s.First() + k, mask) == h
    ensures Hits(EntriesOf(s, n), mask, h) != [] && Hits(EntriesOf(s, n), mask, h)[0].slab == s.id
    ensures Hits(EntriesOf(s, n), mask, h)[0].start == s.base && Hits(EntriesOf(s, n), mask, h)[0].end == s.base + s.size
    ensures Hits(EntriesOf(s, n), mask, h)[0].cache == s.cache
    decreases n
  {
    hide Hash;
    var es := EntriesOf(s, n);
    assert es[..n - 1] == EntriesOf(s, n - 1) && es[n - 1] == EntryFor(s, s.First() + n - 1);
    if Hash(s.First() + n - 1, mask) != h { HitsOfSlab(s, n - 1, mask, h, k); }
  }

  /** Right after a slab was entered wholly, every address in its recorded range is found to be its cache's, whatever
      other slabs claim it. */
  lemma NewestWins(before: seq<seq<Entry>>, after: seq<seq<Entry>>, mask: nat, s: Slab, addr: nat)
    requires s.Addressable() && InFront(before, after, mask, EntriesOf(s, s.Span())) && s.Covers(addr)
    ensures FirstCovering(after[Hash(addr / 4096, mask)], addr) == Some(s.cache)
  {
    hide Hash;
    DivMonotone(s.base, addr, 4096);
    DivMonotone(addr, s.base + s.size - 1, 4096);
    var h := Hash(addr / 4096, mask);
    HitsOfSlab(s, s.Span(), mask, h, addr / 4096 - s.First());
    assert after[h] == Hits(EntriesOf(s, s.Span()), mask, h) + before[h];
  }

  /** Every address of the slab's recorded range leads to its cache. */
  ghost predicate Finds(buckets: seq<seq<Entry>>, mask: nat, s: Slab) {
    |buckets| == mask + 1 && forall addr: nat :: s.Covers(addr) ==> FirstCovering(buckets[Hash(addr / 4096, mask)], addr) == Some(s.cache)
  }

  lemma FoundAfter(before: seq<seq<Entry>>, after: seq<seq<Entry>>, mask: nat, s: Slab)
    requires s.Addressable() && InFront(before, after, mask, EntriesOf(s, s.Span()))
    ensures Finds(after, mask, s)
  {
    hide Hash;
    forall addr: nat | s.Covers(addr) ensures FirstCovering(after[Hash(addr / 4096, mask)], addr) == Some(s.cache) {
      NewestWins(before, after, mask, s, addr);
    }
  }

  lemma NoSpan(slabs: seq<Slab>)
    ensures SpanSum(slabs[..0]) == 0
  {
  }

  lemma SpanSumNext(slabs: seq<Slab>, i: nat)
    requires i < |slabs|
    ensures SpanSum(slabs[..i + 1]) == SpanSum(slabs[..i]) + slabs[i].Span()
  {
    assert slabs[..i + 1][..i] == slabs[..i];
  }

  // -------------------------------------------------------------- room

  /** Entering slab `k`, after those before it, stays below the threshold. */
  ghost predicate RoomAt(count: nat, threshold: nat, slabs: seq<Slab>, k: nat)
    requires k < |slabs|
  {
    Wrap(count + SpanSum(slabs[..k + 1])) < threshold
  }

  /** All the slabs can be entered one after the other without reaching the threshold. */
  ghost predicate RoomFor(count: nat, threshold: nat, slabs: seq<Slab>) {
    forall k {:trigger RoomAt(count, threshold, slabs, k)} :: 0 <= k < |slabs| ==> RoomAt(count, threshold, slabs, k)
  }

  lemma {:induction false} SpanSumConcat(a: seq<Slab>, b: seq<Slab>)
    ensures SpanSum(a + b) == SpanSum(a) + SpanSum(b)
  {
    if b == [] {
      assert a + b == a;
    } else {
      var n := |b| - 1;
      assert (a + b)[..|a + b| - 1] == a + b[..n];
      SpanSumConcat(a, b[..n]);
    }
  }

  lemma RoomBefore(count: nat, threshold: nat, a: seq<Slab>, b: seq<Slab>, k: nat)
    requires k < |a + b|
    ensures RoomAt(count, threshold, a + b, k) ==
            if k < |a| then RoomAt(count, threshold, a, k) else RoomAt(Wrap(count + SpanSum(a)), threshold, b, k - |a|)
  {
    hide Wrap;
    hide SpanSum;
    if k < |a| {
      assert (a + b)[..k + 1] == a[..k + 1];
    } else {
      var rest := b[..k - |a| + 1];
      assert (a + b)[..k + 1] == a + rest;
      SpanSumConcat(a, rest);
      WrapAdd(count + SpanSum(a), SpanSum(rest));
    }
  }

  lemma RoomSplit(count: nat, threshold: nat, a: seq<Slab>, b: seq<Slab>)
    ensures RoomFor(count, threshold, a + b) <==>
            RoomFor(count, threshold, a) && RoomFor(Wrap(count + SpanSum(a)), threshold, b)
  {
    hide RoomAt;
    hide Wrap;
    var next := Wrap(count + SpanSum(a));
    if RoomFor(count, threshold, a + b) {
      forall k | 0 <= k < |a| ensures RoomAt(count, threshold, a, k) { RoomBefore(count, threshold, a, b, k); }
      forall k | 0 <= k < |b| ensures RoomAt(next, threshold, b, k) { RoomBefore(count, threshold, a, b, |a| + k); }
    }
    if RoomFor(count, threshold, a) && RoomFor(next, threshold, b) {
      forall k | 0 <= k < |a + b| ensures RoomAt(count, threshold, a + b, k) { RoomBefore(count, threshold, a, b, k); }
    }
  }

  lemma ChainStep(chain: seq<Entry>, id: nat, i: nat)
    requires i < |chain|
    ensures CountOf(chain[i..], id) == (if chain[i].slab == id then 1 else 0) + CountOf(chain[i + 1..], id)
    ensures Drop(chain[i..], id) == if chain[i].slab == id then chain[i + 1..] else [chain[i]] + Drop(chain[i + 1..], id)
  {
    assert chain[i..][1..] == chain[i + 1..];
  }

  lemma SplitAt(chain: seq<Entry>, i: nat, rest: seq<Entry>)
    requires i < |chain|
    ensures chain[..i] + ([chain[i]] + rest) == chain[..i + 1] + rest
  {
    assert chain[..i + 1] == chain[..i] + [chain[i]];
    Regroup(chain[..i], [chain[i]], rest);
  }

  lemma WholeChain(chain: seq<Entry>)
    ensures chain[0..] == chain && chain[..|chain|] == chain && chain[|chain|..] == []
    ensures forall s: seq<Entry> :: chain[..0] + s == s
    ensures chain + [] == chain
  {
  }

  lemma ChainEnd(id: nat)
    ensures CountOf([], id) == 0 && Drop([], id) == []
  {
  }

  class LookupTable {
    var buckets: seq<seq<Entry>>
    var hashMask: nat
    var numEntries: nat
    var threshold: nat
    var bootstrap: bool
    var resizing: bool
    ghost var tracked: map<nat, Track>
    /** Entries the counter does not know of. */
    ghost var missed: int
    /** How often memory could not be had. */
    ghost var failures: nat

    ghost predicate Valid()
      reads this
    {
      && TracksOk(tracked) && Indexed(buckets, hashMask, tracked)
      && CountedAs(numEntries, Total(buckets), missed)
    }

    constructor ()
      ensures Valid() && bootstrap && !resizing && tracked == map[] && missed == 0
      ensures |buckets| == 64 && threshold == 48
    {
      buckets := seq(64, _ => []);
      hashMask, numEntries, threshold, bootstrap, resizing := 63, 0, 48, true, false;
      tracked, missed := map[], 0;
      new;
      TotalEmpty(buckets);
    }

    method TryMemory() returns (ok: bool)
      modifies this`failures
      ensures failures == old(failures) + if ok then 0 else 1
    {
      ok := *;
      if !ok { failures := failures + 1; }
    }

    /** The slab's pages would bring the counter to the threshold. */
    predicate Full(s: Slab)
      requires s.Addressable()
      reads this
    {
      Wrap(numEntries + s.Span()) >= threshold
    }

    /** The entry loop of insertion; a slab may be left with its first pages only. */
    method InsertPages(s: Slab) returns (whole: bool, panicked: bool)
      requires Valid() && s.Addressable() && s.id !in tracked
      modifies this`buckets, this`numEntries, this`tracked, this`failures
      ensures failures == old(failures) + if whole then 0 else 1
      ensures Valid() && s.id in tracked && Adds(old(tracked), tracked, [s])
      ensures numEntries == Wrap(old(numEntries) + tracked[s.id].pages)
      ensures InFront(old(buckets), buckets, hashMask, EntriesOf(s, tracked[s.id].pages))
      ensures whole ==> Finds(buckets, hashMask, s)
      ensures whole == (tracked[s.id].pages == s.Span())
      ensures Total(buckets) == old(Total(buckets)) + tracked[s.id].pages
      ensures panicked <==> bootstrap && !whole
    {
      hide CountedAs;
      hide Wrap;
      hide Indexed;
      hide Hash;
      hide Adds;
      hide TracksOk;
      hide Finds;
      hide InFront;
      hide EntriesOf;
      TracksPut(tracked, s, 0);
      tracked := tracked[s.id := Track(s, 0)];
      BeginTrack(buckets, hashMask, old(tracked), s);
      DivMonotone(s.base, s.base + s.size - 1, 4096);
      CountBound(numEntries, Total(buckets), missed);
      IndexedSize(buckets, hashMask, tracked);
      FrontNone(buckets, hashMask);
      NoEntries(s);
      var page := s.First();
      panicked := false;
      while page <= s.Last()
        invariant s.First() <= page <= s.Last() + 1
        invariant TracksOk(tracked) && Indexed(buckets, hashMask, tracked)
        invariant CountedAs(numEntries, Total(buckets), missed)
        invariant Total(buckets) == old(Total(buckets)) + page - s.First()
        invariant s.id in tracked && tracked[s.id] == Track(s, page - s.First())
        invariant tracked == old(tracked)[s.id := Track(s, page - s.First())]
        invariant !panicked && failures == old(failures)
        invariant numEntries == Wrap(old(numEntries) + page - s.First())
        invariant InFront(old(buckets), buckets, hashMask, EntriesOf(s, page - s.First()))
      {
        var memory := TryMemory();
        if !memory {
          AddsOne(old(tracked), s, page - s.First());
          return false, bootstrap;
        }
        var hash := Hash(page, hashMask);
        var entry := EntryFor(s, page);
        IndexedSize(buckets, hashMask, tracked);
        PushPage(buckets, hashMask, tracked, s, page - s.First(), hash);
        TotalUpdate(buckets, hash, [entry] + buckets[hash]);
        CountUp(numEntries, Total(buckets), missed);
        WrapAdd(old(numEntries) + page - s.First(), 1);
        FrontNext(old(buckets), buckets, hashMask, EntriesOf(s, page - s.First()), entry);
        EntriesNext(s, page - s.First());
        buckets := buckets[hash := [entry] + buckets[hash]];
        numEntries := Wrap(numEntries + 1);
        TracksPut(tracked, s, page - s.First() + 1);
        tracked := tracked[s.id := Track(s, page - s.First() + 1)];
        page := page + 1;
      }
      AddsOne(old(tracked), s, page - s.First());
      FoundAfter(old(buckets), buckets, hashMask, s);
      whole := true;
    }

    /** `slab_create` calls made by an allocation while the table is being resized: they see the flag and start no
        resize of their own. */
    method InsertAll(slabs: seq<Slab>)
      requires Valid() && !bootstrap && resizing && Fresh(tracked, slabs)
      modifies this`buckets, this`numEntries, this`tracked, this`failures
      ensures failures >= old(failures)
      ensures Valid() && Adds(old(tracked), tracked, slabs)
    {
      hide CountedAs;
      hide Indexed;
      hide TracksOk;
      hide Finds;
      hide InFront;
      var i := 0;
      while i < |slabs|
        invariant 0 <= i <= |slabs| && Valid()
        invariant Adds(old(tracked), tracked, slabs[..i]) && failures >= old(failures)
      {
        ghost var mid := tracked;
        FreshNext(old(tracked), tracked, slabs, i);
        var _, _ := InsertPages(slabs[i]);
        AddsMore(old(tracked), mid, tracked, slabs[..i], [slabs[i]]);
        assert slabs[..i] + [slabs[i]] == slabs[..i + 1];
        i := i + 1;
      }
      assert slabs[..i] == slabs;
    }

    /** Push the entries of one chain, in order, onto their new buckets. */
    method RehashChain(table: seq<seq<Entry>>, mask: nat, chain: seq<Entry>, ghost before: seq<Entry>) returns (wider: seq<seq<Entry>>)
      requires Rehashed(table, mask, before)
      ensures Rehashed(wider, mask, before + chain) && InFront(table, wider, mask, chain)
    {
      hide Hash;
      hide Rehashed;
      hide InFront;
      wider := table;
      assert before + chain[..0] == before;
      RehashedSize(wider, mask, before);
      FrontNone(table, mask);
      assert chain[..0] == [];
      for i := 0 to |chain|
        invariant |wider| == mask + 1 && Rehashed(wider, mask, before + chain[..i]) && InFront(table, wider, mask, chain[..i])
      {
        var e := chain[i];
        RehashStep(wider, mask, before + chain[..i], e);
        FrontNext(table, wider, mask, chain[..i], e);
        assert chain[..i] + [e] == chain[..i + 1];
        wider := wider[Hash(e.page, mask) := [e] + wider[Hash(e.page, mask)]];
        assert before + chain[..i] + [e] == before + chain[..i + 1];
      }
      assert chain[..|chain|] == chain;
    }

    method Rehash(mask: nat) returns (wider: seq<seq<Entry>>)
      requires Valid()
      ensures Indexed(wider, mask, tracked) && Total(wider) == Total(buckets)
      ensures forall h :: 0 <= h <= mask ==> wider[h] == Hits(Flat(buckets), mask, h)
    {
      hide Hash;
      hide Hits;
      wider := seq(mask + 1, _ => []);
      TotalEmpty(wider);
      ghost var empty := wider;
      FrontNone(empty, mask);
      var i := 0;
      ghost var taken: seq<Entry> := [];
      while i < |buckets|
        invariant 0 <= i <= |buckets|
        invariant taken == Flat(buckets[..i]) && Rehashed(wider, mask, taken) && InFront(empty, wider, mask, taken)
      {
        ghost var mid := wider;
        wider := RehashChain(wider, mask, buckets[i], taken);
        FrontConcat(empty, mid, wider, mask, taken, buckets[i]);
        taken := taken + buckets[i];
        assert buckets[..i + 1][..i] == buckets[..i];
        i := i + 1;
      }
      assert buckets[..i] == buckets;
      RehashEnds(buckets, hashMask, wider, mask, tracked);
    }

    /** Double the table, or give up and tolerate longer chains. The two allocations may themselves create
        slabs; `freed` tells that memory is to be given back. */
    method Grow(first: seq<Slab>, second: seq<Slab>) returns (ok: bool, freed: bool, ghost others: seq<Slab>)
      requires Valid() && !bootstrap && Fresh(tracked, first + second)
      modifies this
      ensures Valid() && !bootstrap && !resizing && missed == old(missed) && (ok ==> freed)
      ensures others <= first + second && Adds(old(tracked), tracked, others) && others == (if freed then first + second else first)
      ensures ok ==> |buckets| == 2 * old(|buckets|) && threshold == 2 * old(|buckets|) * 3 / 4
      ensures !ok ==> |buckets| == old(|buckets|) && threshold == 4 * old(|buckets|) && failures > old(failures)
      ensures failures >= old(failures)
    {
      hide CountedAs;
      hide Wrap;
      hide Indexed;
      hide TracksOk;
      IndexedSize(buckets, hashMask, tracked);
      resizing := true;
      FreshPart(tracked, first, second);
      InsertAll(first);
      IndexedSize(buckets, hashMask, tracked);
      var memory := TryMemory();
      if !memory {
        threshold, resizing := 4 * |buckets|, false;
        return false, false, first;
      }
      FreshRest(old(tracked), tracked, first, second);
      ghost var mid := tracked;
      InsertAll(second);
      AddsMore(old(tracked), mid, tracked, first, second);
      IndexedSize(buckets, hashMask, tracked);
      memory := TryMemory();
      if !memory {
        threshold, resizing := 4 * |buckets|, false;
        return false, true, first + second;
      }
      var wider := Rehash(2 * |buckets| - 1);
      IndexedSize(wider, 2 * |buckets| - 1, tracked);
      threshold := 2 * |buckets| * 3 / 4;
      hashMask := 2 * |buckets| - 1;
      buckets := wider;
      resizing := false;
      return true, true, first + second;
    }

    /** Slabs that giving memory back lets the allocator destroy. */
    method RemoveAll(slabs: seq<Slab>)
      requires Valid() && Matching(tracked, slabs)
      modifies this`buckets, this`numEntries, this`tracked
      ensures Valid() && tracked == old(tracked) - Ids(slabs)
    {
      hide CountedAs;
      hide Indexed;
      hide TracksOk;
      var i := 0;
      assert Ids(slabs[..0]) == {} && tracked - {} == tracked;
      while i < |slabs|
        invariant 0 <= i <= |slabs| && Valid() && tracked == old(tracked) - Ids(slabs[..i])
      {
        assert Ids(slabs[..i + 1]) == Ids(slabs[..i]) + {slabs[i].id} by { IdsNext(slabs, i); }
        Remove(slabs[i]);
        i := i + 1;
      }
      assert slabs[..i] == slabs;
    }

    /** Resize the table, with what the allocations create and what giving memory back destroys. `all` is what
        was tracked in between. */
    method Resize(first: seq<Slab>, second: seq<Slab>, reaped: seq<Slab>)
        returns (ok: bool, ghost others: seq<Slab>, ghost all: map<nat, Track>, ghost gone: seq<Slab>)
      requires Valid() && !bootstrap && Fresh(tracked, first + second)
      requires Matching(tracked, reaped) && Agree(first + second, reaped)
      modifies this
      ensures Valid() && !bootstrap && !resizing && missed == old(missed)
      ensures others <= first + second && Adds(old(tracked), all, others) && tracked == all - Ids(gone)
      ensures ok ==> |buckets| == 2 * old(|buckets|) && threshold == 2 * old(|buckets|) * 3 / 4 && others == first + second && gone == reaped
      ensures !ok ==> |buckets| == old(|buckets|) && threshold == 4 * old(|buckets|) && (gone == reaped || gone == [])
      ensures failures >= old(failures) && (!ok ==> failures > old(failures))
    {
      hide CountedAs;
      hide Indexed;
      hide TracksOk;
      hide Adds;
      var freed;
      ok, freed, others := Grow(first, second);
      all, gone := tracked, [];
      assert tracked - Ids([]) == tracked;
      if freed {
        MatchingAfter(old(tracked), tracked, first + second, reaped);
        IndexedSize(buckets, hashMask, tracked);
        RemoveAll(reaped);
        IndexedSize(buckets, hashMask, tracked);
        gone := reaped;
      }
    }

    /** Add a slab. A full bootstrap table, or one that cannot get an entry, stops the kernel. */
    method Insert(s: Slab, first: seq<Slab>, second: seq<Slab>, reaped: seq<Slab>)
        returns (whole: bool, panicked: bool, ghost others: seq<Slab>, ghost all: map<nat, Track>, ghost gone: seq<Slab>)
      requires Valid() && !resizing && Fresh(tracked, first + second + [s])
      requires Matching(tracked, reaped) && Agree(first + second, reaped)
      modifies this
      ensures s.Addressable() && (panicked <==> old(bootstrap) && (old(Full(s)) || failures > old(failures)))
      ensures !old(Full(s)) ==> |buckets| == old(|buckets|) && threshold == old(threshold) && others == [] && gone == []
      ensures old(Full(s)) && !old(bootstrap) ==>
                || (|buckets| == 2 * old(|buckets|) && threshold == 2 * old(|buckets|) * 3 / 4 && others == first + second && gone == reaped)
                || (|buckets| == old(|buckets|) && threshold == 4 * old(|buckets|) && failures > old(failures))
      ensures !panicked && !whole ==> failures > old(failures)
      ensures !panicked && whole ==> Finds(buckets, hashMask, s)
      ensures !panicked ==> Valid() && !resizing && missed == old(missed) && bootstrap == old(bootstrap)
      ensures !panicked ==> others <= first + second && Adds(old(tracked), all, others) && (gone == reaped || gone == [])
      ensures !panicked ==> s.id in tracked && Adds(all - Ids(gone), tracked, [s])
      ensures !panicked ==> whole == (tracked[s.id].pages == s.Span())
      ensures !panicked && bootstrap ==> whole && others == [] && gone == []
    {
      hide CountedAs;
      hide Wrap;
      hide Indexed;
      hide TracksOk;
      hide Finds;
      hide InFront;
      hide Adds;
      others, all, gone := [], tracked, [];
      assert (first + second + [s])[|first + second|] == s;
      assert s.Addressable() && s.id !in tracked;
      AddsNone(tracked);
      assert tracked - Ids([]) == tracked;
      IndexedSize(buckets, hashMask, tracked);
      if Full(s) {
        if bootstrap { return false, true, [], all, []; }
        FreshPart(tracked, first + second, [s]);
        var grown;
        grown, others, all, gone := Resize(first, second, reaped);
        StillFresh(old(tracked), all, first + second, others, s);
      }
      IndexedSize(buckets, hashMask, tracked);
      whole, panicked := InsertPages(s);
      IndexedSize(buckets, hashMask, tracked);
    }

    /** Forget a slab: one entry is taken out of the chain of each of its pages. */
    method Remove(s: Slab)
      requires Valid() && s.Addressable() && (s.id in tracked ==> tracked[s.id].slab == s)
      modifies this`buckets, this`numEntries, this`tracked
      ensures Valid() && tracked == old(tracked) - {s.id}
      ensures |buckets| == old(|buckets|) && forall h :: 0 <= h < |buckets| ==> buckets[h] == Others(old(buckets)[h], s.id)
    {
      hide CountedAs;
      hide Hash;
      hide Others;
      hide Removing;
      hide Indexed;
      hide CountOf;
      hide Drop;
      IndexedSize(buckets, hashMask, tracked);
      if s.id in tracked { RemovingStarts(buckets, hashMask, tracked, s.id); }
      DivMonotone(s.base, s.base + s.size - 1, 4096);
      var page := s.First();
      while page <= s.Last()
        invariant s.First() <= page <= s.Last() + 1 && |buckets| == hashMask + 1
        invariant tracked == old(tracked) && (s.id !in tracked ==> buckets == old(buckets))
        invariant s.id in tracked ==> Removing(buckets, hashMask, tracked, s.id, page - s.First())
        invariant CountedAs(numEntries, Total(buckets), missed)
        invariant |buckets| == old(|buckets|) && forall h :: 0 <= h < |buckets| ==> Others(buckets[h], s.id) == Others(old(buckets)[h], s.id)
      {
        var hash := Hash(page, hashMask);
        var chain, found := Unchain(buckets[hash], s.id);
        OthersDrop(buckets[hash], s.id);
        TotalUpdate(buckets, hash, chain);
        if s.id in tracked {
          RemovingStep(buckets, hashMask, tracked, s.id, page - s.First(), hash);
        } else {
          Untracked(buckets, hashMask, tracked, s.id, hash);
        }
        if found { CountDown(numEntries, Total(buckets), missed); }
        buckets := buckets[hash := chain];
        if found {
          numEntries := if numEntries == 0 then WORD - 1 else numEntries - 1;
        }
        page := page + 1;
      }
      if s.id in tracked {
        RemovingEnds(buckets, hashMask, tracked, s.id);
      } else {
        assert tracked - {s.id} == tracked;
      }
      tracked := tracked - {s.id};
      forall h | 0 <= h < |buckets| ensures buckets[h] == Others(old(buckets)[h], s.id) {
        Untracked(buckets, hashMask, tracked, s.id, h);
        OthersDrop(buckets[h], s.id);
      }
    }

    /** Cut the first entry of the slab out of the chain. */
    method Unchain(chain: seq<Entry>, id: nat) returns (rest: seq<Entry>, found: bool)
      ensures rest == Drop(chain, id) && found == (CountOf(chain, id) > 0)
      ensures |rest| == if found then |chain| - 1 else |chain|
    {
      hide CountOf;
      hide Drop;
      var i := 0;
      WholeChain(chain);
      while i < |chain|
        invariant 0 <= i <= |chain|
        invariant CountOf(chain, id) == CountOf(chain[i..], id)
        invariant Drop(chain, id) == chain[..i] + Drop(chain[i..], id)
      {
        ChainStep(chain, id, i);
        if chain[i].slab == id { return chain[..i] + chain[i + 1..], true; }
        SplitAt(chain, i, Drop(chain[i + 1..], id));
        i := i + 1;
      }
      ChainEnd(id);
      WholeChain(chain);
      return chain, false;
    }

    /** The cache recorded for an address. */
    method Find(addr: nat) returns (r: Option<nat>)
      requires Valid()
      ensures addr != 0 ==> r == FirstCovering(buckets[Hash(addr / 4096, hashMask)], addr)
      ensures r.Some? ==> addr != 0 && r.value in Owners(tracked, addr)
      ensures r.None? && addr != 0 ==> forall id :: id in tracked ==> !Listed(tracked[id], addr)
      ensures Whole(tracked) && addr != 0 ==> (r.None? <==> Owners(tracked, addr) == {})
    {
      hide Hash;
      if addr == 0 { return None; }
      var hash := Hash(addr / 4096, hashMask);
      var i := 0;
      while i < |buckets[hash]|
        invariant 0 <= i <= |buckets[hash]|
        invariant forall j :: 0 <= j < i ==> !(buckets[hash][j].start <= addr < buckets[hash][j].end)
        invariant FirstCovering(buckets[hash], addr) == FirstCovering(buckets[hash][i..], addr)
      {
        var entry := buckets[hash][i];
        assert buckets[hash][i..][1..] == buckets[hash][i + 1..];
        assert multiset(buckets[hash])[entry] > 0;
        if entry.start <= addr < entry.end {
          assert Belongs(tracked, hashMask, hash, entry);
          assert tracked[entry.slab].slab.Covers(addr);
          return Some(entry.cache);
        }
        i := i + 1;
      }
      forall id | id in tracked ensures !Listed(tracked[id], addr) {
        if Listed(tracked[id], addr) {
          CoveredPage(tracked[id].slab, addr);
          var e := EntryFor(tracked[id].slab, addr / 4096);
          InChain(buckets, hashMask, tracked, hash, e);
        }
      }
      forall id | id in tracked && Whole(tracked) ensures !tracked[id].slab.Covers(addr) {
        if tracked[id].slab.Covers(addr) { CoveredPage(tracked[id].slab, addr); }
      }
      return None;
    }

    /** Copy the bootstrap table to heap memory. The counter is copied before the bucket
        allocation, whose own slabs are therefore entered but never counted. */
    method Migrate(before: seq<Slab>, during: seq<Slab>) returns (panicked: bool)
      requires Valid() && !resizing && Fresh(tracked, before + during)
      modifies this
      ensures !bootstrap || panicked
      ensures !panicked ==> Valid() && !resizing && hashMask == old(hashMask) && threshold == old(threshold)
      ensures panicked <==> old(bootstrap) && (failures > old(failures) || !RoomFor(old(numEntries), threshold, before + during))
      ensures !panicked && !old(bootstrap) ==> tracked == old(tracked) && missed == old(missed) && buckets == old(buckets)
      ensures !panicked && old(bootstrap) ==> Adds(old(tracked), tracked, before + during)
      ensures !panicked && old(bootstrap) ==> missed == old(missed) + SpanSum(during)
    {
      hide CountedAs;
      hide Wrap;
      hide RoomFor;
      hide SpanSum;
      hide Indexed;
      hide TracksOk;
      hide Adds;
      hide Fresh;
      if !bootstrap { return false; }
      FreshPart(tracked, before, during);
      RoomSplit(numEntries, threshold, before, during);
      panicked := BootstrapInserts(before);
      if panicked { return; }
      var memory := TryMemory();
      if !memory { return true; }
      FreshRest(old(tracked), tracked, before, during);
      var count := numEntries;
      ghost var mid, held := tracked, Total(buckets);
      panicked := BootstrapInserts(during);
      if panicked { return; }
      memory := TryMemory();
      if !memory { return true; }
      AddsMore(old(tracked), mid, tracked, before, during);
      var copied;
      memory, copied := CopyChains();
      if !memory { return true; }
      buckets, numEntries, bootstrap := copied, count, false;
      CountTaken(count, held, missed, Total(buckets));
      missed := missed + Total(buckets) - held;
    }

    /** Slabs created by the allocator while the bootstrap table is in use. */
    method BootstrapInserts(slabs: seq<Slab>) returns (panicked: bool)
      requires Valid() && !resizing && bootstrap && Fresh(tracked, slabs)
      modifies this
      ensures bootstrap && threshold == old(threshold) && failures >= old(failures)
      ensures panicked <==> failures > old(failures) || !RoomFor(old(numEntries), threshold, slabs)
      ensures !panicked ==> Valid() && !resizing && missed == old(missed)
      ensures !panicked ==> hashMask == old(hashMask) && Adds(old(tracked), tracked, slabs)
      ensures !panicked ==> Total(buckets) == old(Total(buckets)) + SpanSum(slabs)
      ensures !panicked ==> numEntries == Wrap(old(numEntries) + SpanSum(slabs))
    {
      hide CountedAs;
      hide Wrap;
      hide Indexed;
      hide TracksOk;
      hide Finds;
      hide InFront;
      hide Adds;
      hide Fresh;
      hide SpanSum;
      var i := 0;
      AddsNone(tracked);
      CountBound(numEntries, Total(buckets), missed);
      NoSpan(slabs);
      panicked := false;
      while i < |slabs|
        invariant 0 <= i <= |slabs| && !panicked
        invariant Valid() && !resizing && bootstrap && missed == old(missed) && hashMask == old(hashMask)
        invariant Adds(old(tracked), tracked, slabs[..i])
        invariant Total(buckets) == old(Total(buckets)) + SpanSum(slabs[..i])
        invariant threshold == old(threshold) && failures == old(failures)
        invariant numEntries == Wrap(old(numEntries) + SpanSum(slabs[..i]))
        invariant forall k :: 0 <= k < i ==> RoomAt(old(numEntries), threshold, slabs, k)
      {
        ghost var mid := tracked;
        var s := slabs[i];
        FreshNext(old(tracked), tracked, slabs, i);
        SpanSumNext(slabs, i);
        WrapAdd(old(numEntries) + SpanSum(slabs[..i]), s.Span());
        if Full(s) {
          assert !RoomAt(old(numEntries), threshold, slabs, i);
          return true;
        }
        var _, stopped := InsertPages(s);
        if stopped { return true; }
        AddsMore(old(tracked), mid, tracked, slabs[..i], [s]);
        assert slabs[..i] + [s] == slabs[..i + 1];
        i := i + 1;
      }
      assert slabs[..i] == slabs;
    }

    method CopyChains() returns (ok: bool, copied: seq<seq<Entry>>)
      modifies this`failures
      ensures failures == old(failures) + if ok then 0 else 1
      ensures ok ==> copied == buckets
    {
      copied := [];
      var i := 0;
      while i < |buckets|
        invariant 0 <= i <= |buckets| && copied == buckets[..i] && failures == old(failures)
      {
        var chain: seq<Entry> := [];
        var j := 0;
        while j < |buckets[i]|
          invariant 0 <= j <= |buckets[i]| && chain == buckets[i][..j] && failures == old(failures)
        {
          var memory := TryMemory();
          if !memory { return false, copied; }
          var e := buckets[i][j];
          chain := chain + [Entry(e.page, e.start, e.end, e.cache, e.slab)];
          j := j + 1;
        }
        assert chain == buckets[i];
        copied := copied + [chain];
        i := i + 1;
      }
      ok := true;
    }
  }
}
