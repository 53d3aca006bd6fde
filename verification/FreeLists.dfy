/** The allocator's bookkeeping as values: block references, the per-order free lists,
    and page counts summed over slots and chunks.
 */
module FreeLists {
  import opened Bits
  import opened PageChunk

  /** A `struct page_block *`: a slot of the chunk whose first usable page is `chunk`. */
  datatype Ref = Ref(chunk: nat, slot: nat)

  type Chunks = map<nat, Chunk>

  predicate Known(chunks: Chunks, r: Ref) {
    r.chunk in chunks && r.slot < |chunks[r.chunk].slots|
  }

  function At(chunks: Chunks, r: Ref): Slot
    requires Known(chunks, r)
  {
    chunks[r.chunk].slots[r.slot]
  }

  function Put(chunks: Chunks, r: Ref, s: Slot): Chunks
    requires Known(chunks, r)
  {
    chunks[r.chunk := chunks[r.chunk].(slots := chunks[r.chunk].slots[r.slot := s])]
  }

  predicate NoDup<T(==)>(s: seq<T>) {
    forall i, j :: 0 <= i < j < |s| ==> s[i] != s[j]
  }

  function Without<T>(s: seq<T>, i: nat): seq<T>
    requires i < |s|
  {
    s[..i] + s[i + 1..]
  }

  /** List `k` holds exactly the free blocks of order `k` that are not held by the running operation, each once. */
  ghost predicate Linked(lists: seq<seq<Ref>>, chunks: Chunks, held: set<Ref>) {
    && |lists| == MAX_ORDER + 1
    && (forall k, r :: 0 <= k < |lists| && r in lists[k] ==> Known(chunks, r) && At(chunks, r).Free() && At(chunks, r).order == k && r !in held)
    && (forall r :: Known(chunks, r) && At(chunks, r).Free() && r !in held ==> At(chunks, r).order <= MAX_ORDER && r in lists[At(chunks, r).order])
    && (forall k :: 0 <= k < |lists| ==> NoDup(lists[k]))
  }

  /** Unlinking a block leaves it held. */
  lemma Unlink(lists: seq<seq<Ref>>, chunks: Chunks, held: set<Ref>, k: nat, i: nat)
    requires Linked(lists, chunks, held) && k < |lists| && i < |lists[k]|
    ensures Linked(lists[k := Without(lists[k], i)], chunks, held + {lists[k][i]})
  {
    var r := lists[k][i];
    var list, list' := lists[k], Without(lists[k], i);
    assert forall j :: 0 <= j < |list'| ==> list'[j] == list[if j < i then j else j + 1];
    assert forall q :: q in list ==> q == r || q in list' by {
      forall q | q in list && q != r ensures q in list' {
        var j :| 0 <= j < |list| && list[j] == q;
        assert list'[if j < i then j else j - 1] == q;
      }
    }
    assert r in list;
  }

  /** Linking a held free block at the head of the list of its order. */
  lemma Link(lists: seq<seq<Ref>>, chunks: Chunks, held: set<Ref>, r: Ref)
    requires Linked(lists, chunks, held) && r in held
    requires Known(chunks, r) && At(chunks, r).Free() && At(chunks, r).order <= MAX_ORDER
    ensures var k := At(chunks, r).order; Linked(lists[k := [r] + lists[k]], chunks, held - {r})
  {
    var k := At(chunks, r).order;
    assert r !in lists[k];
  }

  /** A held block, or a slot that is not free, may be changed at will as long as it is then held or not free. */
  lemma PutUnlinked(lists: seq<seq<Ref>>, chunks: Chunks, held: set<Ref>, r: Ref, s: Slot)
    requires Linked(lists, chunks, held) && Known(chunks, r)
    requires r in held || !At(chunks, r).Free()
    ensures Linked(lists, Put(chunks, r, s), held + {r})
    ensures !s.Free() ==> Linked(lists, Put(chunks, r, s), held - {r})
  {
    var chunks' := Put(chunks, r, s);
    assert forall q :: Known(chunks', q) <==> Known(chunks, q);
    assert forall q :: Known(chunks, q) && q != r ==> At(chunks', q) == At(chunks, q);
    assert At(chunks', r) == s;
    assert forall k :: 0 <= k < |lists| ==> r !in lists[k];
  }

  // ---------------------------------------------------------------- sums

  function FreeWeight(s: Slot): int { if s.Free() then Pow2(s.order) else 0 }
  function UsedWeight(s: Slot): int { if s.Used() then Pow2(s.order) else 0 }
  function LiveCount(s: Slot): int { if s.Live() then 1 else 0 }
  function SpareCount(s: Slot): int { if !s.Used() && !s.inUse then 1 else 0 }

  function Sum(slots: seq<Slot>, w: Slot -> int): int {
    if slots == [] then 0 else Sum(slots[..|slots| - 1], w) + w(slots[|slots| - 1])
  }

  lemma {:induction false} SumPut(slots: seq<Slot>, i: nat, s: Slot, w: Slot -> int)
    requires i < |slots|
    ensures Sum(slots[i := s], w) == Sum(slots, w) - w(slots[i]) + w(s)
  {
    var n := |slots| - 1;
    if i == n {
      assert slots[i := s][..n] == slots[..n];
    } else {
      assert slots[i := s][..n] == slots[..n][i := s];
      SumPut(slots[..n], i, s, w);
    }
  }

  lemma {:induction false} SumZero(slots: seq<Slot>, w: Slot -> int)
    requires forall i :: 0 <= i < |slots| ==> w(slots[i]) == 0
    ensures Sum(slots, w) == 0
  {
    if slots != [] { SumZero(slots[..|slots| - 1], w); }
  }

  lemma {:induction false} SumSame(slots: seq<Slot>, w: Slot -> int, v: Slot -> int)
    requires forall i :: 0 <= i < |slots| ==> w(slots[i]) == v(slots[i])
    ensures Sum(slots, w) == Sum(slots, v)
  {
    if slots != [] { SumSame(slots[..|slots| - 1], w, v); }
  }

  /** Some slot is live exactly when the live count is positive. */
  lemma {:induction false} SumLive(slots: seq<Slot>)
    ensures Sum(slots, LiveCount) >= 0
    ensures Sum(slots, LiveCount) == 0 <==> forall i :: 0 <= i < |slots| ==> !slots[i].Live()
  {
    if slots != [] {
      var init := slots[..|slots| - 1];
      SumLive(init);
      assert slots == init + [slots[|slots| - 1]];
    }
  }

  lemma {:induction false} SumSpare(slots: seq<Slot>)
    ensures Sum(slots, SpareCount) >= 0
    ensures Sum(slots, SpareCount) == 0 <==> forall i :: 0 <= i < |slots| ==> slots[i].Used() || slots[i].inUse
  {
    if slots != [] {
      var init := slots[..|slots| - 1];
      SumSpare(init);
      assert slots == init + [slots[|slots| - 1]];
    }
  }

  function Total(list: seq<nat>, chunks: Chunks, w: Slot -> int): int
    requires forall c :: c in list ==> c in chunks
  {
    if list == [] then 0 else Sum(chunks[list[0]].slots, w) + Total(list[1..], chunks, w)
  }

  lemma {:induction false} TotalElsewhere(list: seq<nat>, chunks: Chunks, chunks': Chunks, w: Slot -> int)
    requires forall c :: c in list ==> c in chunks && c in chunks' && chunks'[c].slots == chunks[c].slots
    ensures Total(list, chunks', w) == Total(list, chunks, w)
  {
    if list != [] { TotalElsewhere(list[1..], chunks, chunks', w); }
  }

  lemma {:induction false} TotalReplace(list: seq<nat>, chunks: Chunks, c: nat, ch: Chunk, w: Slot -> int)
    requires NoDup(list) && c in list && forall d :: d in list ==> d in chunks
    ensures Total(list, chunks[c := ch], w) == Total(list, chunks, w) - Sum(chunks[c].slots, w) + Sum(ch.slots, w)
  {
    if list[0] == c {
      TotalElsewhere(list[1..], chunks, chunks[c := ch], w);
    } else {
      TotalReplace(list[1..], chunks, c, ch, w);
    }
  }

  lemma {:induction false} TotalWithout(list: seq<nat>, chunks: Chunks, i: nat, w: Slot -> int)
    requires i < |list| && forall d :: d in list ==> d in chunks
    ensures forall d :: d in Without(list, i) ==> d in chunks
    ensures Total(Without(list, i), chunks, w) == Total(list, chunks, w) - Sum(chunks[list[i]].slots, w)
  {
    if i == 0 {
      assert Without(list, 0) == list[1..];
    } else {
      assert Without(list, i) == [list[0]] + Without(list[1..], i - 1);
      TotalWithout(list[1..], chunks, i - 1, w);
      assert Without(list, i)[1..] == Without(list[1..], i - 1);
    }
  }

  /** Changing one slot changes every total by the difference of its weights. */
  lemma TotalPut(list: seq<nat>, chunks: Chunks, r: Ref, s: Slot, w: Slot -> int)
    requires NoDup(list) && Known(chunks, r) && r.chunk in list && forall d :: d in list ==> d in chunks
    ensures Total(list, Put(chunks, r, s), w) == Total(list, chunks, w) - w(At(chunks, r)) + w(s)
  {
    var ch := chunks[r.chunk];
    TotalReplace(list, chunks, r.chunk, ch.(slots := ch.slots[r.slot := s]), w);
    SumPut(ch.slots, r.slot, s, w);
  }
}
