/** A slab cache: fixed-size objects carved from slabs kept on a full, a partial and an empty list.

    A slab is known by the address of its memory. Its free objects form a chain of
    indices through the slab's index array. The physical memory a new slab gets, or
    the lack of it, is a parameter of `Alloc`.
 */
module Slab {
  import opened Bits
  import opened SlabLayout

  /** The chain's end marker. */
  const END: nat := 0xFFFF_FFFF

  datatype SlabRec = SlabRec(numFree: nat, freelist: seq<nat>, head: nat)

  // -------------------------------------------------------------- free chains

  ghost predicate Distinct(c: seq<nat>) {
    forall i, j :: 0 <= i < j < |c| ==> c[i] != c[j]
  }

  function After(c: seq<nat>, i: nat): nat {
    if i + 1 < |c| then c[i + 1] else END
  }

  /** The index array leads from the chain's element `i` to the next. */
  ghost predicate LinkAt(freelist: seq<nat>, c: seq<nat>, i: nat)
    requires i < |c|
  {
    c[i] < |freelist| && freelist[c[i]] == After(c, i)
  }

  /** From `head` the index array leads through exactly the indices of `c`, without repetition, to the end. */
  ghost predicate Chained(freelist: seq<nat>, head: nat, c: seq<nat>) {
    && (forall i {:trigger LinkAt(freelist, c, i)} :: 0 <= i < |c| ==> LinkAt(freelist, c, i))
    && Distinct(c)
    && head == if c == [] then END else c[0]
  }

  lemma PopChain(freelist: seq<nat>, head: nat, c: seq<nat>)
    requires Chained(freelist, head, c) && c != []
    ensures head == c[0] < |freelist| && Chained(freelist, freelist[head], c[1..])
  {
    var d := c[1..];
    assert LinkAt(freelist, c, 0);
    forall i | 0 <= i < |d| ensures LinkAt(freelist, d, i) {
      assert LinkAt(freelist, c, i + 1);
    }
  }

  lemma PushChain(freelist: seq<nat>, head: nat, c: seq<nat>, x: nat)
    requires Chained(freelist, head, c) && x < |freelist| && x !in c
    ensures Chained(freelist[x := head], x, [x] + c)
  {
    var d, f := [x] + c, freelist[x := head];
    forall i | 0 <= i < |d| ensures LinkAt(f, d, i) {
      if i > 0 { assert LinkAt(freelist, c, i - 1); }
    }
    forall i, j | 0 <= i < j < |d| ensures d[i] != d[j] {
      assert d[j] == c[j - 1];
    }
  }

  /** Freeing an index that is already free closes the chain into a cycle: nothing ends it any more. */
  lemma DoubleFreeCycles(freelist: seq<nat>, head: nat, c: seq<nat>, x: nat, d: seq<nat>)
    requires Chained(freelist, head, c) && x in c && x < |freelist| <= END
    ensures !Chained(freelist[x := head], x, d)
  {
    var k :| 0 <= k < |c| && c[k] == x;
    if Chained(freelist[x := head], x, d) {
      CycleStep(freelist, head, c, x, d, k, k);
    }
  }

  lemma {:induction false} CycleStep(freelist: seq<nat>, head: nat, c: seq<nat>, x: nat, d: seq<nat>, k: nat, i: nat)
    requires Chained(freelist, head, c) && i <= k < |c| && c[k] == x && x < |freelist| <= END
    requires Chained(freelist[x := head], x, d)
    ensures i + 1 < |d| && d[i + 1] == c[i]
  {
    var f := freelist[x := head];
    if i == 0 {
      assert LinkAt(f, d, 0) && LinkAt(freelist, c, 0);
    } else {
      CycleStep(freelist, head, c, x, d, k, i - 1);
      assert LinkAt(freelist, c, i - 1) && LinkAt(freelist, c, i) && LinkAt(f, d, i);
    }
  }

  /** A slab as created: the chain runs through all its objects in order. */
  function FreshChain(n: nat): seq<nat> { seq(n, i => i) }

  /** There are at most `n` distinct indices below `n`. */
  lemma {:induction false} Pigeonhole(c: seq<nat>, n: nat)
    requires Distinct(c) && forall i :: 0 <= i < |c| ==> c[i] < n
    ensures |c| <= n
  {
    if c != [] {
      assert c[0] < n;
      if k :| 0 <= k < |c| && c[k] == n - 1 {
        var d := c[..k] + c[k + 1..];
        forall i | 0 <= i < |d| ensures d[i] == c[if i < k then i else i + 1] {}
        Pigeonhole(d, n - 1);
      } else {
        Pigeonhole(c, n - 1);
      }
    }
  }

  /** A free chain that misses an index is shorter than the slab. */
  lemma NotAll(c: seq<nat>, n: nat, x: nat)
    requires x < n && x !in c && Distinct(c) && forall i :: 0 <= i < |c| ==> c[i] < n
    ensures |c| < n
  {
    Pigeonhole([x] + c, n);
  }

  lemma ChainInRange(freelist: seq<nat>, head: nat, c: seq<nat>)
    requires Chained(freelist, head, c)
    ensures Distinct(c) && forall i :: 0 <= i < |c| ==> c[i] < |freelist|
  {
    forall i | 0 <= i < |c| ensures c[i] < |freelist| { assert LinkAt(freelist, c, i); }
  }

  // -------------------------------------------------------------- the cache as a value

  /** `chain` and `live` are what the index arrays stand for: each slab's free indices, and the
      (slab, index) pairs handed out. */
  datatype State = State(
    n: nat, slabs: map<nat, SlabRec>, full: seq<nat>, partial: seq<nat>, empty: seq<nat>,
    chain: map<nat, seq<nat>>, live: set<(nat, nat)>)

  function Lists(t: State): multiset<nat> {
    multiset(t.full) + multiset(t.partial) + multiset(t.empty)
  }

  ghost predicate SlabOk(t: State, id: nat)
    requires id in t.slabs
  {
    && id in t.chain && |t.slabs[id].freelist| == t.n && t.slabs[id].numFree == |t.chain[id]| <= t.n
    && Chained(t.slabs[id].freelist, t.slabs[id].head, t.chain[id])
  }

  /** Every slab is on exactly one list, the one its free count calls for. A slab of
      one object has no place on the empty list: it goes back to the partial one. */
  ghost predicate ListsOk(t: State) {
    && (forall id :: Lists(t)[id] == if id in t.slabs then 1 else 0)
    && (forall id :: id in t.full ==> id in t.slabs && t.slabs[id].numFree == 0)
    && (forall id :: id in t.partial ==> id in t.slabs && 0 < t.slabs[id].numFree && (t.slabs[id].numFree < t.n || t.n == 1))
    && (forall id :: id in t.empty ==> id in t.slabs && t.slabs[id].numFree == t.n && t.n >= 2)
  }

  ghost predicate LiveOk(t: State) {
    && t.chain.Keys == t.slabs.Keys
    && forall id: nat, i: nat :: (id, i) in t.live <==> id in t.chain && i < t.n && i !in t.chain[id]
  }

  ghost predicate Inv(t: State) {
    1 <= t.n < END && (forall id :: id in t.slabs ==> SlabOk(t, id)) && ListsOk(t) && LiveOk(t)
  }

  function Without(list: seq<nat>, x: nat): seq<nat> {
    if list == [] then [] else if list[0] == x then list[1..] else [list[0]] + Without(list[1..], x)
  }

  /** Without its first `x` the list is as before. */
  lemma {:induction false} WithoutAt(list: seq<nat>, x: nat) returns (i: nat)
    requires x in list
    ensures i < |list| && list[i] == x && x !in list[..i] && Without(list, x) == list[..i] + list[i + 1..]
  {
    if list[0] == x {
      i := 0;
    } else {
      assert list == [list[0]] + list[1..];
      var k := WithoutAt(list[1..], x);
      i := k + 1;
      assert list[..i] == [list[0]] + list[1..][..k] && list[i + 1..] == list[1..][k + 1..];
    }
  }

  lemma {:induction false} WithoutOnce(list: seq<nat>, x: nat)
    requires x in list
    ensures multiset(Without(list, x)) == multiset(list) - multiset{x} && |Without(list, x)| == |list| - 1
  {
    assert list == [list[0]] + list[1..];
    if list[0] != x { WithoutOnce(list[1..], x); }
  }

  lemma WithoutIt(list: seq<nat>, x: nat)
    requires multiset(list)[x] == 1
    ensures forall j :: j in Without(list, x) <==> j in list && j != x
  {
    hide Without;
    WithoutOnce(list, x);
    forall j ensures j in Without(list, x) <==> j in list && j != x {
      assert j in Without(list, x) <==> multiset(Without(list, x))[j] > 0;
    }
  }

  /** Moving an element from one list to the head of another. */
  lemma Moved(a: seq<nat>, b: seq<nat>, x: nat)
    requires x in a
    ensures multiset(Without(a, x)) + multiset([x] + b) == multiset(a) + multiset(b)
    ensures multiset([x] + b) + multiset(Without(a, x)) == multiset(b) + multiset(a)
  {
    hide Without;
    WithoutOnce(a, x);
    assert multiset([x] + b) == multiset{x} + multiset(b);
  }

  lemma SameLists(t: State, u: State)
    requires (u.empty == t.empty && multiset(u.full) + multiset(u.partial) == multiset(t.full) + multiset(t.partial))
          || (u.full == t.full && multiset(u.partial) + multiset(u.empty) == multiset(t.partial) + multiset(t.empty))
    ensures Lists(u) == Lists(t)
  {
    assert Lists(u) == multiset(u.full) + (multiset(u.partial) + multiset(u.empty));
    assert Lists(t) == multiset(t.full) + (multiset(t.partial) + multiset(t.empty));
  }

  lemma OneList(t: State, id: nat)
    requires Lists(t)[id] == 1
    ensures multiset(t.full)[id] + multiset(t.partial)[id] + multiset(t.empty)[id] == 1
    ensures id in t.full ==> id !in t.partial && id !in t.empty
    ensures id in t.partial ==> id !in t.full && id !in t.empty
    ensures id in t.empty ==> id !in t.full && id !in t.partial
  {
  }

  /** The list a slab is on follows from its free count. */
  lemma WhichList(t: State, id: nat)
    requires Inv(t) && id in t.slabs
    ensures id in t.full <==> t.slabs[id].numFree == 0
    ensures id in t.empty <==> t.slabs[id].numFree == t.n >= 2
    ensures id in t.partial <==> 0 < t.slabs[id].numFree && (t.slabs[id].numFree < t.n || t.n == 1)
    ensures multiset(t.full)[id] + multiset(t.partial)[id] + multiset(t.empty)[id] == 1
  {
    assert Lists(t)[id] == 1;
    assert SlabOk(t, id);
  }

  /** A cache with one object per slab never has an empty slab, so it never gives memory back. */
  lemma OneObjectSlabs(t: State)
    requires Inv(t) && t.n == 1
    ensures t.empty == []
  {
    assert forall i :: 0 <= i < |t.empty| ==> t.empty[i] in t.empty;
  }

  // -------------------------------------------------------------- steps

  /** A new slab, all free, at the head of the partial list. */
  function AddSlab(t: State, id: nat): State {
    t.(slabs := t.slabs[id := SlabRec(t.n, FreshList(t.n), 0)], partial := [id] + t.partial,
       chain := t.chain[id := FreshChain(t.n)])
  }

  function FreshList(n: nat): seq<nat> { seq(n, i => if i + 1 < n then i + 1 else END) }

  /** The state between choosing an all-free slab and taking an object from it. */
  ghost predicate Opened(t: State, id: nat) {
    && 1 <= t.n < END && (forall j :: j in t.slabs ==> SlabOk(t, j)) && LiveOk(t)
    && (forall j :: Lists(t)[j] == if j in t.slabs then 1 else 0)
    && (forall j :: j in t.full ==> j in t.slabs && t.slabs[j].numFree == 0)
    && (forall j :: j in t.partial && j != id ==> j in t.slabs && 0 < t.slabs[j].numFree && (t.slabs[j].numFree < t.n || t.n == 1))
    && (forall j :: j in t.empty ==> j in t.slabs && t.slabs[j].numFree == t.n && t.n >= 2)
    && id in t.slabs && id in t.partial && t.slabs[id].numFree > 0
  }

  lemma OpenPartial(t: State)
    requires Inv(t) && t.partial != []
    ensures Opened(t, t.partial[0])
  {
    assert t.partial[0] in t.partial;
  }

  lemma OpenNew(t: State, id: nat)
    requires Inv(t) && id !in t.slabs
    ensures Opened(AddSlab(t, id), id)
  {
    hide LiveOk;
    hide Chained;
    hide FreshList;
    hide FreshChain;
    hide Lists;
    NewSlabs(t, id);
    NewLists(t, id);
    NewLive(t, id);
  }

  lemma NewLists(t: State, id: nat)
    ensures Lists(AddSlab(t, id)) == Lists(t) + multiset{id}
    ensures forall j :: j in AddSlab(t, id).partial <==> j == id || j in t.partial
  {
  }

  lemma FreshChained(n: nat)
    requires n >= 1
    ensures Chained(FreshList(n), 0, FreshChain(n)) && |FreshList(n)| == |FreshChain(n)| == n
  {
    var f, c := FreshList(n), FreshChain(n);
    forall i | 0 <= i < |c| ensures LinkAt(f, c, i) {}
  }

  lemma NewSlabs(t: State, id: nat)
    requires 1 <= t.n && forall j :: j in t.slabs ==> SlabOk(t, j)
    ensures forall j :: j in AddSlab(t, id).slabs ==> SlabOk(AddSlab(t, id), j)
    ensures AddSlab(t, id).slabs[id].numFree == t.n
  {
    hide Chained;
    hide FreshList;
    hide FreshChain;
    var u := AddSlab(t, id);
    FreshChained(t.n);
    forall j | j in u.slabs ensures SlabOk(u, j) {
      if j != id { assert SlabOk(t, j); }
    }
  }

  lemma NewLive(t: State, id: nat)
    requires LiveOk(t) && id !in t.slabs
    ensures LiveOk(AddSlab(t, id))
  {
    var u, c := AddSlab(t, id), FreshChain(t.n);
    assert forall i: nat :: i < t.n ==> c[i] == i;
    forall j: nat, i: nat ensures (j, i) in u.live <==> j in u.chain && i < u.n && i !in u.chain[j] {
      if j == id && i < u.n { assert c[i] in c; }
    }
  }

  /** An empty slab moved to the head of the partial list. */
  function Reopen(t: State): State
    requires t.empty != []
  {
    t.(empty := Without(t.empty, t.empty[0]), partial := [t.empty[0]] + t.partial)
  }

  lemma SameLive(t: State, u: State)
    requires LiveOk(t) && u.n == t.n && u.slabs == t.slabs && u.chain == t.chain && u.live == t.live
    ensures LiveOk(u)
  {
  }

  lemma OpenEmpty(t: State)
    requires Inv(t) && t.empty != []
    ensures Opened(Reopen(t), t.empty[0])
  {
    hide Without;
    hide Lists;
    hide Chained;
    hide LiveOk;
    var id, u := t.empty[0], Reopen(t);
    assert id in t.empty;
    InEmpty(t, id);
    WithoutIt(t.empty, id);
    Moved(t.empty, t.partial, id);
    SameLists(t, u);
    SameLive(t, u);
    forall j | j in u.slabs ensures SlabOk(u, j) { assert SlabOk(t, j); }
  }

  function Pop(s: SlabRec): SlabRec {
    if s.head < |s.freelist| && s.numFree > 0 then s.(numFree := s.numFree - 1, head := s.freelist[s.head]) else s
  }

  /** The head of the slab's chain is handed out. */
  function Take(t: State, id: nat): State
    requires id in t.slabs && id in t.chain && t.chain[id] != []
  {
    var s := Pop(t.slabs[id]);
    var u := t.(slabs := t.slabs[id := s], chain := t.chain[id := t.chain[id][1..]],
                live := t.live + {(id, t.chain[id][0])});
    if s.numFree == 0 then u.(partial := Without(t.partial, id), full := [id] + t.full) else u
  }

  lemma TakeKeeps(t: State, id: nat)
    requires Opened(t, id)
    ensures id in t.chain && t.chain[id] != [] && t.slabs[id].head == t.chain[id][0] < t.n
    ensures (id, t.chain[id][0]) !in t.live
    ensures Inv(Take(t, id))
  {
    assert SlabOk(t, id);
    var s, c := t.slabs[id], t.chain[id];
    PopChain(s.freelist, s.head, c);
    var u := Take(t, id);
    forall j | j in u.slabs ensures SlabOk(u, j) {
      assert SlabOk(t, j);
    }
    TakeLists(t, id);
    TakeLive(t, id);
  }

  lemma TakeLists(t: State, id: nat)
    requires Opened(t, id) && id in t.chain && t.chain[id] != [] && t.slabs[id].numFree <= t.n
    requires t.slabs[id].head < |t.slabs[id].freelist|
    ensures ListsOk(Take(t, id))
  {
    hide SlabOk;
    hide LiveOk;
    var u := Take(t, id);
    assert Lists(t)[id] == 1 && multiset(t.partial)[id] >= 1;
    assert id !in t.full && id !in t.empty by { assert multiset(t.full)[id] == 0 && multiset(t.empty)[id] == 0; }
    if u.slabs[id].numFree == 0 { MoveToFull(t, u, id); }
  }

  lemma MoveToFull(t: State, u: State, id: nat)
    requires (forall j :: Lists(t)[j] == if j in t.slabs then 1 else 0) && id in t.partial && id !in t.full && id !in t.empty
    requires forall j :: j in t.full ==> j in t.slabs && t.slabs[j].numFree == 0
    requires forall j :: j in t.partial && j != id ==> j in t.slabs && 0 < t.slabs[j].numFree && (t.slabs[j].numFree < t.n || t.n == 1)
    requires forall j :: j in t.empty ==> j in t.slabs && t.slabs[j].numFree == t.n && t.n >= 2
    requires u.n == t.n && id in t.slabs && id in u.slabs && u.slabs == t.slabs[id := u.slabs[id]] && u.slabs[id].numFree == 0
    requires u.full == [id] + t.full && u.partial == Without(t.partial, id) && u.empty == t.empty
    ensures ListsOk(u)
  {
    hide Without;
    hide Lists;
    OneList(t, id);
    WithoutIt(t.partial, id);
    Moved(t.partial, t.full, id);
    SameLists(t, u);
    forall j ensures Lists(u)[j] == if j in u.slabs then 1 else 0 { assert Lists(t)[j] == if j in t.slabs then 1 else 0; }
    forall j | j in u.full ensures j in u.slabs && u.slabs[j].numFree == 0 { assert j == id || j in t.full; }
  }

  lemma TakeLive(t: State, id: nat)
    requires id in t.slabs && SlabOk(t, id) && t.chain[id] != [] && LiveOk(t)
    ensures LiveOk(Take(t, id)) && (id, t.chain[id][0]) !in t.live
  {
    var u, c := Take(t, id), t.chain[id];
    ChainInRange(t.slabs[id].freelist, t.slabs[id].head, c);
    assert c == [c[0]] + c[1..];
    forall j: nat, i: nat ensures (j, i) in u.live <==> j in u.chain && i < u.n && i !in u.chain[j] {
      if j == id && i == c[0] { assert i !in c[1..]; }
    }
  }

  function Push(s: SlabRec, x: nat): SlabRec {
    if x < |s.freelist| then SlabRec(s.numFree + 1, s.freelist[x := s.head], x) else s
  }

  /** An index returned to its slab, and the slab moved where its new count calls for. */
  function Give(t: State, id: nat, x: nat): State
    requires id in t.slabs && id in t.chain
  {
    var s := Push(t.slabs[id], x);
    var u := t.(slabs := t.slabs[id := s], chain := t.chain[id := [x] + t.chain[id]], live := t.live - {(id, x)});
    if s.numFree == 1 then
      if id in t.full then u.(full := Without(t.full, id), partial := [id] + t.partial) else u
    else if s.numFree == t.n then u.(partial := Without(t.partial, id), empty := [id] + t.empty)
    else u
  }

  lemma GiveKeeps(t: State, id: nat, x: nat)
    requires Inv(t) && (id, x) in t.live
    ensures id in t.slabs && id in t.chain && x < t.n && Inv(Give(t, id, x))
  {
    assert SlabOk(t, id);
    var s, c := t.slabs[id], t.chain[id];
    assert x !in c && x < t.n;
    PushChain(s.freelist, s.head, c, x);
    ChainInRange(s.freelist, s.head, c);
    NotAll(c, t.n, x);
    WhichList(t, id);
    var u := Give(t, id, x);
    forall j | j in u.slabs ensures SlabOk(u, j) {
      assert SlabOk(t, j);
    }
    GiveLive(t, id, x);
    GiveLists(t, id, x);
  }

  lemma GiveLive(t: State, id: nat, x: nat)
    requires LiveOk(t) && id in t.slabs && x < t.n && (id, x) in t.live
    ensures LiveOk(Give(t, id, x))
  {
    var u := Give(t, id, x);
    forall j: nat, i: nat ensures (j, i) in u.live <==> j in u.chain && i < u.n && i !in u.chain[j] {
    }
  }

  lemma GiveLists(t: State, id: nat, x: nat)
    requires Inv(t) && id in t.slabs && id in t.chain && x < t.n && t.slabs[id].numFree < t.n
    ensures ListsOk(Give(t, id, x))
  {
    hide Without;
    hide Lists;
    hide Chained;
    hide LiveOk;
    WhichList(t, id);
    assert SlabOk(t, id);
    var u := Give(t, id, x);
    if u.slabs[id].numFree == 1 {
      MoveToPartial(t, u, id);
    } else if u.slabs[id].numFree == t.n {
      MoveToEmpty(t, u, id);
    } else {
      SameLists(t, u);
    }
  }

  lemma MoveToPartial(t: State, u: State, id: nat)
    requires ListsOk(t) && id in t.full && id !in t.partial && id !in t.empty && t.n >= 1
    requires u.n == t.n && id in u.slabs && u.slabs == t.slabs[id := u.slabs[id]] && u.slabs[id].numFree == 1
    requires u.full == Without(t.full, id) && u.partial == [id] + t.partial && u.empty == t.empty
    ensures ListsOk(u)
  {
    hide Without;
    hide Lists;
    OneList(t, id);
    WithoutIt(t.full, id);
    Moved(t.full, t.partial, id);
    SameLists(t, u);
  }

  lemma MoveToEmpty(t: State, u: State, id: nat)
    requires ListsOk(t) && id in t.partial && id !in t.full && id !in t.empty && t.n >= 2
    requires u.n == t.n && id in u.slabs && u.slabs == t.slabs[id := u.slabs[id]] && u.slabs[id].numFree == t.n
    requires u.full == t.full && u.partial == Without(t.partial, id) && u.empty == [id] + t.empty
    ensures ListsOk(u)
  {
    hide Without;
    hide Lists;
    OneList(t, id);
    WithoutIt(t.partial, id);
    Moved(t.partial, t.empty, id);
    SameLists(t, u);
  }

  /** The second empty slab is given up. */
  function Reap(t: State): State
    requires |t.empty| >= 2
  {
    t.(slabs := t.slabs - {t.empty[1]}, chain := t.chain - {t.empty[1]}, empty := Without(t.empty, t.empty[1]))
  }

  lemma ReapKeeps(t: State)
    requires Inv(t) && |t.empty| >= 2
    ensures Inv(Reap(t)) && t.empty[1] in t.slabs && forall i: nat :: (t.empty[1], i) !in t.live
  {
    hide LiveOk;
    hide ListsOk;
    hide Chained;
    hide Without;
    var id, u := t.empty[1], Reap(t);
    assert id in t.empty;
    InEmpty(t, id);
    ReapLists(t);
    AllFree(t, id);
    ReapLive(t);
    forall j | j in u.slabs ensures SlabOk(u, j) { assert SlabOk(t, j); }
  }

  lemma InEmpty(t: State, id: nat)
    requires ListsOk(t) && id in t.empty
    ensures id in t.slabs && t.slabs[id].numFree == t.n && multiset(t.empty)[id] == 1 && id !in t.full && id !in t.partial
  {
    assert Lists(t)[id] == 1;
  }

  /** No object of a slab whose objects are all free is handed out. */
  lemma AllFree(t: State, id: nat)
    requires id in t.slabs && SlabOk(t, id) && LiveOk(t) && t.slabs[id].numFree == t.n
    ensures forall i: nat :: (id, i) !in t.live
  {
    ChainInRange(t.slabs[id].freelist, t.slabs[id].head, t.chain[id]);
    forall i: nat ensures (id, i) !in t.live {
      if i < t.n && i !in t.chain[id] { NotAll(t.chain[id], t.n, i); }
    }
  }

  lemma ReapLists(t: State)
    requires ListsOk(t) && |t.empty| >= 2
    ensures ListsOk(Reap(t))
  {
    hide Without;
    var id, u := t.empty[1], Reap(t);
    assert id in t.empty;
    InEmpty(t, id);
    WithoutIt(t.empty, id);
    WithoutOnce(t.empty, id);
    forall j ensures Lists(u)[j] == if j in u.slabs then 1 else 0 {
      assert Lists(t)[j] == if j in t.slabs then 1 else 0;
    }
  }

  lemma ReapLive(t: State)
    requires LiveOk(t) && |t.empty| >= 2 && forall i: nat :: (t.empty[1], i) !in t.live
    ensures LiveOk(Reap(t))
  {
  }
}
