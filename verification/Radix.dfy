/** The radix tree operations: insert, lookup, delete, replace, and ordered iteration.

    Node allocation may fail at any call. Each locked section of the original is one method call here.
 */
module Radix {
  import opened Bits
  import opened RadixNodes

  /** `u` holds what `t` holds, except `x` under `k`. */
  ghost predicate Updates(t: Tree, u: Tree, k: nat, x: nat)
    requires Wf(t) && Wf(u)
  {
    forall j: nat :: Value(u, j) == if j == k then x else Value(t, j)
  }

  /** No key is stored. */
  ghost predicate Keyless(t: Tree)
    requires Wf(t)
  {
    forall k: nat :: Value(t, k) == 0
  }

  class RadixTree {
    var nodes: map<nat, Node>
    var rnode: nat
    var height: nat
    var maxKey: nat
    ghost var at: map<nat, Pos>
    ghost var index: map<Pos, nat>
    /** How often a node could not be had. */
    ghost var failures: nat

    ghost function Now(): Tree
      reads this
    {
      Tree(nodes, rnode, height, maxKey, at, index)
    }

    ghost predicate Valid()
      reads this
    {
      Wf(Now()) && maxKey < KEYS
    }

    constructor ()
      ensures Valid() && Now() == Cleared() && NoGarbage(Now()) && Keyless(Now())
    {
      nodes, rnode, height, maxKey, at, index := map[], 0, 0, 0, map[], map[];
    }

    /** A zeroed node's address, not in use; 0 when memory is exhausted. */
    method NodeCreate() returns (n: nat)
      modifies this`failures
      ensures n != 0 ==> n !in nodes
      ensures failures == old(failures) + if n == 0 then 1 else 0
    {
      n := *;
      if n in nodes { n := 0; }
      if n == 0 { failures := failures + 1; }
    }

    // -------------------------------------------------------------- descent

    /** The leaf on the path of the key, or 0. */
    method FindLeaf(k: nat) returns (leaf: nat)
      requires Valid() && k < KEYS
      ensures leaf != 0 ==> Path(k, 0) in index && index[Path(k, 0)] == leaf
      ensures leaf == 0 ==> Path(k, 0) !in index
    {
      hide Range;
      hide SlotOf;
      hide NodeOk;
      hide ParentOk;
      if rnode == 0 || height == 0 { return 0; }
      RootPath(Now(), k);
      if k > MaxIndex(height) {
        if Path(k, 0) in index { Ancestor(Now(), k, 0, height - 1); }
        return 0;
      }
      leaf := rnode;
      var l := height - 1;
      while l > 0
        invariant 0 <= l < height && Path(k, l) in index && index[Path(k, l)] == leaf
      {
        if nodes[leaf].slots[SlotOf(k, l)] == 0 {
          NullSlot(Now(), k, l);
          if Path(k, 0) in index { Ancestor(Now(), k, 0, l - 1); }
          return 0;
        }
        NextOnPath(Now(), k, l);
        leaf := nodes[leaf].slots[SlotOf(k, l)];
        l := l - 1;
      }
    }

    method Lookup(k: nat) returns (r: nat)
      requires Valid() && k < KEYS
      ensures r == Value(Now(), k)
    {
      var leaf := FindLeaf(k);
      r := if leaf == 0 then 0 else nodes[leaf].slots[SlotOf(k, 0)];
    }

    // -------------------------------------------------------------- insert

    /** The empty tree gets its first leaf. */
    method StartWith(n: nat)
      modifies this`nodes, this`rnode, this`height, this`at, this`index
      ensures Now() == FirstLeaf(old(Now()), n)
    {
      nodes, rnode, height := map[n := Node(0, 0, 0, NullSlots())], n, 1;
      at, index := map[n := Pos(0, 0)], map[Pos(0, 0) := n];
    }

    /** Put a new root above the old one. */
    method RaiseBy(n: nat)
      requires rnode in nodes
      modifies this`nodes, this`rnode, this`height, this`at, this`index
      ensures Now() == Grow(old(Now()), n)
    {
      nodes := nodes[rnode := nodes[rnode].(parent := n)][n := Node(height, 1, 0, NullSlots()[0 := rnode])];
      at, index := at[n := Pos(height, 0)], index[Pos(height, 0) := n];
      rnode, height := n, height + 1;
    }

    /** Raise the tree until it can hold the key. */
    method Extend(k: nat) returns (ok: bool)
      requires Valid() && k < KEYS
      modifies this
      ensures Valid() && SameValues(old(Now()), Now()) && maxKey == old(maxKey)
      ensures ok ==> height > 0 && k <= MaxIndex(height)
      ensures ok && height > old(height) ==> height == 1 || k > MaxIndex(height - 1)
      ensures ok ==> height >= old(height)
      ensures Path(k, 0) in old(index) ==> ok && Now() == old(Now())
      ensures failures == old(failures) + if ok then 0 else 1
      ensures old(NoGarbage(Now())) ==> NoGarbage(Now())
    {
      hide Wf;
      hide Value;
      hide NoGarbage;
      hide Grow;
      hide FirstLeaf;
      Pow64Values();
      var h := 1;
      while k > MaxIndex(h)
        invariant 1 <= h <= MAX_HEIGHT && (h > 1 ==> k > MaxIndex(h - 1))
      {
        h := h + 1;
      }
      WfBasics(Now());
      if Path(k, 0) in index {
        LeafInside(Now(), k);
        HeightEnough(h, height, k);
      }
      if height == 0 {
        var n := NodeCreate();
        if n == 0 { return false; }
        FirstLeafWf(Now(), n);
        LeafFields(Now(), n);
        StartWith(n);
        WfBasics(Now());
      }
      while h > height
        invariant failures == old(failures) && (Path(k, 0) in old(index) ==> h <= height && Now() == old(Now()))
        invariant height >= old(height) && (height > old(height) ==> height <= h)
        invariant Valid() && 0 < height <= MAX_HEIGHT && SameValues(old(Now()), Now()) && maxKey == old(maxKey)
        invariant old(NoGarbage(Now())) ==> at.Keys == nodes.Keys && NoGarbage(Now())
      {
        var n := NodeCreate();
        WfBasics(Now());
        if n == 0 { return false; }
        GrowWf(Now(), n);
        GrowFields(Now(), n);
        RaiseBy(n);
        WfBasics(Now());
      }
      WfBasics(Now());
      ok := true;
      MaxIndexMonotone(h, height);
    }

    /** The next node down the path of the key, created if missing; 0 when memory is exhausted. */
    method StepDown(k: nat, l: nat, above: nat) returns (node: nat)
      requires Valid() && 0 < l < height && Path(k, l) in index && index[Path(k, l)] == above
      modifies this
      ensures Valid() && SameValues(old(Now()), Now()) && maxKey == old(maxKey) && height == old(height)
      ensures node == 0 ==> Now() == old(Now())
      ensures node != 0 ==> Path(k, l - 1) in index && index[Path(k, l - 1)] == node
      ensures node != 0 && old(NoGarbageBut(Now(), above)) ==> NoGarbageBut(Now(), node)
      ensures Path(k, l - 1) in old(index) ==> node != 0 && Now() == old(Now())
      ensures failures == old(failures) + if node == 0 then 1 else 0
    {
      hide Range;
      hide SlotOf;
      hide NodeOk;
      hide ParentOk;
      node := nodes[above].slots[SlotOf(k, l)];
      if node == 0 {
        NullSlot(Now(), k, l);
        node := NodeCreate();
        if node == 0 { return; }
        HangWf(Now(), k, l, node);
        ghost var u := Hang(Now(), k, l, node);
        nodes := nodes[above := nodes[above].(slots := nodes[above].slots[SlotOf(k, l) := node], count := nodes[above].count + 1)]
                 [node := Node(l - 1, 0, above, NullSlots())];
        at, index := at[node := Path(k, l - 1)], index[Path(k, l - 1) := node];
        assert Now() == u;
      } else {
        NextOnPath(Now(), k, l);
        UsedNode(Now(), above, SlotOf(k, l));
      }
    }

    /** Store an item in the leaf of a key, unless there is one. */
    method FillSlot(k: nat, item: nat, leaf: nat) returns (ok: bool)
      requires Valid() && k < KEYS && item != 0 && Path(k, 0) in index && index[Path(k, 0)] == leaf
      modifies this`nodes, this`maxKey
      ensures Valid() && (ok <==> old(Value(Now(), k)) == 0)
      ensures ok ==> Updates(old(Now()), Now(), k, item) && maxKey == if k > old(maxKey) then k else old(maxKey)
      ensures !ok ==> Now() == old(Now())
      ensures old(NoGarbageBut(Now(), leaf)) ==> NoGarbage(Now())
    {
      hide Range;
      hide SlotOf;
      hide NodeOk;
      hide ParentOk;
      if nodes[leaf].slots[SlotOf(k, 0)] != 0 {
        UsedNode(Now(), leaf, SlotOf(k, 0));
        return false;
      }
      ghost var u := PutItem(Now(), k, item, nodes[leaf].count + 1);
      PutItemWf(Now(), k, item, nodes[leaf].count + 1);
      nodes := nodes[leaf := nodes[leaf].(slots := nodes[leaf].slots[SlotOf(k, 0) := item], count := nodes[leaf].count + 1)];
      assert Now() == u;
      if k > maxKey { maxKey := k; }
      MaxKeyOnly(u, Now());
      ok := true;
    }

    /** Insert an item under a key that has none. A failed insert leaves every entry as it was. */
    method Insert(k: nat, item: nat) returns (ok: bool, ghost exhausted: bool)
      requires Valid() && k < KEYS
      modifies this
      ensures Valid()
      ensures ok <==> item != 0 && old(Value(Now(), k)) == 0 && !exhausted
      ensures ok ==> Updates(old(Now()), Now(), k, item) && maxKey == if k > old(maxKey) then k else old(maxKey)
      ensures !ok ==> SameValues(old(Now()), Now()) && maxKey == old(maxKey)
      ensures old(NoGarbage(Now())) && !exhausted ==> NoGarbage(Now())
      ensures exhausted ==> item != 0 && Path(k, 0) !in old(index)
      ensures failures == old(failures) + if exhausted then 1 else 0
    {
      hide Wf;
      hide Value;
      hide Range;
      exhausted := false;
      if item == 0 { return false, false; }
      WfBasics(Now());
      ghost var good, before := NoGarbage(Now()), Now();
      var extended := Extend(k);
      if !extended { return false, true; }
      WfBasics(Now());
      RootPath(Now(), k);
      var node, l := rnode, height - 1;
      while l > 0
        invariant Valid() && 0 <= l < height && Path(k, l) in index && index[Path(k, l)] == node
        invariant SameValues(before, Now()) && maxKey == old(maxKey) && at.Keys == nodes.Keys
        invariant good ==> NoGarbageBut(Now(), node)
        invariant failures == old(failures) && (Path(k, 0) in old(index) ==> Now() == old(Now()))
      {
        if Path(k, 0) in index { AboveLeaf(Now(), k, l - 1); }
        node := StepDown(k, l, node);
        if node == 0 { return false, true; }
        WfBasics(Now());
        l := l - 1;
      }
      ok := FillSlot(k, item, node);
    }

    // -------------------------------------------------------------- delete

    /** Forget every node. */
    method Clear()
      modifies this
      ensures Now() == Cleared()
    {
      nodes, rnode, height, maxKey, at, index := map[], 0, 0, 0, map[], map[];
    }

    /** From an emptied leaf upwards, take out every node that has become empty. */
    method RemoveEmpty(leaf: nat)
      requires Valid() && leaf in nodes
      modifies this
      ensures Valid() && SameValues(old(Now()), Now())
      ensures old(NoGarbageBut(Now(), leaf)) ==> NoGarbage(Now())
      ensures Now() == Cleared() || (height == old(height) > 0 && maxKey == old(maxKey))
    {
      hide Wf;
      hide Value;
      WfBasics(Now());
      ghost var good := NoGarbageBut(Now(), leaf);
      var node := leaf;
      while nodes[node].count == 0
        invariant Valid() && node in nodes && at.Keys == nodes.Keys && SameValues(old(Now()), Now())
        invariant good ==> NoGarbageBut(Now(), node)
        invariant height == old(height) > 0 && maxKey == old(maxKey)
        decreases height - at[node].level
      {
        var parent := nodes[node].parent;
        RootHasNoParent(Now(), node);
        if parent == 0 {
          RootAlone(Now());
          ClearedWf();
          ghost var before := Now();
          Clear();
          SameWhenKeyless(before, Now());
          return;
        }
        PruneOk(Now(), node);
        var offset := 0;
        while nodes[parent].slots[offset] != node
          invariant 0 <= offset < MAP_SIZE && forall i :: 0 <= i < offset ==> nodes[parent].slots[i] != node
          decreases MAP_SIZE - offset
        {
          offset := offset + 1;
        }
        PruneWf(Now(), node);
        ghost var u := Prune(Now(), node);
        nodes := nodes[parent := nodes[parent].(slots := nodes[parent].slots[offset := 0], count := nodes[parent].count - 1)] - {node};
        ghost var place := at[node];
        at, index := at - {node}, index - {place};
        assert Now() == u;
        WfBasics(u);
        node := parent;
      }
      UsedCount(Now(), node);
    }

    /** Lower the tree while the root's only child is its first; drop a root leaf that is empty. */
    method Shrink()
      requires Valid()
      modifies this
      ensures Valid() && SameValues(old(Now()), Now())
      ensures old(NoGarbage(Now())) ==> NoGarbage(Now())
      ensures old(height) == 0 ==> Now() == old(Now())
      ensures old(height) > 0 ==> Now() == Cleared() || (height > 0 && maxKey == old(maxKey))
      ensures old(NoGarbage(Now())) && Keyless(Now()) ==> height == 0
    {
      hide Wf;
      hide Value;
      hide NoGarbage;
      WfBasics(Now());
      while height > 1 && nodes[rnode].count == 1 && nodes[rnode].slots[0] != 0
        invariant Valid() && SameValues(old(Now()), Now()) && maxKey == old(maxKey)
        invariant at.Keys == nodes.Keys && (old(NoGarbage(Now())) ==> NoGarbage(Now()))
        invariant rnode != 0 ==> rnode in nodes && |nodes[rnode].slots| == MAP_SIZE
        invariant (height == 0 <==> rnode == 0) && (height == 0 <==> old(height) == 0) && (height == 0 ==> Now() == old(Now()))
        decreases height
      {
        LowerWf(Now());
        RootAtTop(Now());
        ghost var u, place := Lower(Now()), at[rnode];
        var node := rnode;
        rnode := nodes[node].slots[0];
        height := height - 1;
        nodes := nodes[rnode := nodes[rnode].(parent := 0)] - {node};
        at, index := at - {node}, index - {place};
        assert Now() == u;
        WfBasics(u);
      }
      ghost var before := Now();
      if NoGarbage(before) && Keyless(before) && height > 0 { KeylessSpine(before); }
      if height == 1 && nodes[rnode].count == 0 {
        RootAlone(Now());
        ClearedWf();
        Clear();
        SameWhenKeyless(before, Now());
      }
    }

    /** Clear the slot of a key in its leaf. */
    method ClearSlot(k: nat, leaf: nat)
      requires k < KEYS && Path(k, 0) in index && leaf == index[Path(k, 0)] && leaf in nodes && nodes[leaf].count > 0
      requires |nodes[leaf].slots| == MAP_SIZE
      modifies this`nodes
      ensures Now() == PutItem(old(Now()), k, 0, old(nodes)[leaf].count - 1)
    {
      hide SlotOf;
      ghost var t := Now();
      nodes := nodes[leaf := nodes[leaf].(slots := nodes[leaf].slots[SlotOf(k, 0) := 0], count := nodes[leaf].count - 1)];
      assert Now() == PutItem(t, k, 0, t.nodes[leaf].count - 1);
    }

    /** Take the item of a key out of its leaf. */
    method TakeItem(k: nat) returns (leaf: nat, r: nat)
      requires Valid() && k < KEYS
      modifies this`nodes
      ensures Valid() && r == old(Value(Now(), k)) && (r == 0 ==> Now() == old(Now()))
      ensures r != 0 ==> leaf in nodes && at.Keys == nodes.Keys && Updates(old(Now()), Now(), k, 0)
      ensures r != 0 && old(NoGarbage(Now())) ==> NoGarbageBut(Now(), leaf)
    {
      hide Range;
      hide SlotOf;
      hide NodeOk;
      hide ParentOk;
      leaf := FindLeaf(k);
      if leaf == 0 { return 0, 0; }
      r := nodes[leaf].slots[SlotOf(k, 0)];
      if r == 0 { return; }
      UsedNode(Now(), leaf, SlotOf(k, 0));
      PutItemWf(Now(), k, 0, nodes[leaf].count - 1);
      ClearSlot(k, leaf);
    }

    /** Remove the entry of a key and return it. */
    method Delete(k: nat) returns (r: nat)
      requires Valid() && k < KEYS
      modifies this
      ensures Valid() && r == old(Value(Now(), k))
      ensures r == 0 ==> Now() == old(Now())
      ensures r != 0 ==> Updates(old(Now()), Now(), k, 0)
      ensures r != 0 ==> maxKey == if height == 0 || k == old(maxKey) then 0 else old(maxKey)
      ensures old(NoGarbage(Now())) ==> NoGarbage(Now()) && (r != 0 && Keyless(Now()) ==> Now() == Cleared())
    {
      hide Wf;
      hide Value;
      hide NoGarbageBut;
      var leaf;
      leaf, r := TakeItem(k);
      if r == 0 { return; }
      RemoveEmpty(leaf);
      Shrink();
      ghost var v := Now();
      WfBasics(v);
      if k == maxKey { maxKey := 0; }
      MaxKeyOnly(v, Now());
    }

    // -------------------------------------------------------------- replace

    /** Swap the item of a key that has one. Where only the leaf exists the item is stored but not counted,
        which breaks the node's count; where there is no leaf nothing happens. A null item deletes. */
    method Replace(k: nat, item: nat) returns (r: nat)
      requires Valid() && k < KEYS
      modifies this
      ensures r == old(Value(Now(), k))
      ensures r != 0 ==> Valid() && Updates(old(Now()), Now(), k, item)
      ensures r == 0 && (item == 0 || Path(k, 0) !in old(index)) ==> Now() == old(Now())
      ensures r == 0 && item != 0 && Path(k, 0) in old(index) ==>
                var leaf := old(index)[Path(k, 0)];
                leaf in nodes && |nodes[leaf].slots| == MAP_SIZE && nodes[leaf].slots[SlotOf(k, 0)] == item
                && nodes[leaf].count == NonNull(nodes[leaf].slots) - 1 && !Valid()
    {
      if item == 0 {
        r := Delete(k);
        return;
      }
      var leaf := FindLeaf(k);
      if leaf == 0 { return 0; }
      r := nodes[leaf].slots[SlotOf(k, 0)];
      ReplaceSlot(Now(), k, item);
      nodes := nodes[leaf := nodes[leaf].(slots := nodes[leaf].slots[SlotOf(k, 0) := item])];
    }

    // -------------------------------------------------------------- iteration

    /** The least key from `first` up that is present and not above `maxKey`: its item (0 if there is none)
        and the key to continue from, which is 0 after the last of all keys. Without one, `key` is where the search began. */
    method NextSlot(first: nat) returns (r: nat, key: nat, next: nat)
      requires Valid() && first < KEYS
      ensures r == 0 ==> forall k: nat :: first <= k <= maxKey ==> Value(Now(), k) == 0
      ensures r != 0 ==> IsNext(Now(), first, key) && r == Value(Now(), key) && next == (key + 1) % KEYS
      ensures r == 0 && rnode != 0 ==> key == first && next == (first + 1) % KEYS
    {
      hide Range;
      hide SlotOf;
      hide NodeOk;
      hide ParentOk;
      r, key, next := 0, first, (first + 1) % KEYS;
      if rnode == 0 || height == 0 { return; }
      var k := first;
      while k <= maxKey
        invariant first <= k <= KEYS && forall j: nat :: first <= j < k ==> Value(Now(), j) == 0
        decreases KEYS - k
      {
        RootPath(Now(), k);
        if k > MaxIndex(height) {
          BeyondTop(Now(), k);
          return;
        }
        var node, l, skip := rnode, height - 1, false;
        while l > 0 && !skip
          invariant 0 <= l < height && Path(k, l) in index && index[Path(k, l)] == node
          invariant skip ==> l > 0 && nodes[node].slots[SlotOf(k, l)] == 0
          decreases l, !skip
        {
          var child := nodes[node].slots[SlotOf(k, l)];
          if child == 0 {
            skip := true;
          } else {
            NextOnPath(Now(), k, l);
            node := child;
            l := l - 1;
          }
        }
        if skip {
          SkipSubtree(Now(), k, l);
          k := (Range(k, l) + 1) * Pow64(l);
          if k >= KEYS { return; }
        } else {
          if nodes[node].slots[SlotOf(k, 0)] != 0 {
            return nodes[node].slots[SlotOf(k, 0)], k, (k + 1) % KEYS;
          }
          k := k + 1;
        }
      }
    }

    /** Up to `maxItems` items, each that of the next key from where the previous one left off. */
    method GangLookup(first: nat, maxItems: nat) returns (results: seq<nat>, ghost keys: seq<nat>)
      requires Valid() && first < KEYS
      ensures |results| == |keys| <= maxItems && Chain(Now(), first, keys)
      ensures forall i :: 0 <= i < |keys| ==> results[i] == Value(Now(), keys[i])
      ensures |keys| < maxItems ==> forall k: nat :: ChainEnd(first, keys) <= k <= maxKey ==> Value(Now(), k) == 0
    {
      hide Wf;
      hide Value;
      results, keys := [], [];
      var k := first;
      while |results| < maxItems
        invariant |results| == |keys| <= maxItems && Chain(Now(), first, keys) && k == ChainEnd(first, keys) < KEYS
        invariant forall i :: 0 <= i < |keys| ==> results[i] == Value(Now(), keys[i])
        decreases maxItems - |results|
      {
        var entry, key, next := NextSlot(k);
        if entry == 0 { return; }
        assert (keys + [key])[..|keys|] == keys;
        results := results + [entry];
        keys := keys + [key];
        k := next;
      }
    }
  }

  /** `key` is the least present key from `first` up, and within the recorded maximum. */
  ghost predicate IsNext(t: Tree, first: nat, key: nat)
    requires Wf(t)
  {
    first <= key <= t.maxKey && key < KEYS && Value(t, key) != 0 && forall k: nat :: first <= k < key ==> Value(t, k) == 0
  }

  /** Where iteration continues after these keys. */
  function ChainEnd(first: nat, keys: seq<nat>): nat {
    if keys == [] then first else (keys[|keys| - 1] + 1) % KEYS
  }

  /** Each key is the next one from where iteration stood. */
  ghost predicate Chain(t: Tree, first: nat, keys: seq<nat>)
    requires Wf(t)
  {
    keys != [] ==>
      var n := |keys| - 1;
      Chain(t, first, keys[..n]) && IsNext(t, ChainEnd(first, keys[..n]), keys[n])
  }

  /** Iteration moves strictly upwards, except that after key 0xFFFFFFFF it starts over. */
  lemma {:induction false} ChainOrder(t: Tree, first: nat, keys: seq<nat>, i: nat)
    requires Wf(t) && Chain(t, first, keys) && i + 1 < |keys|
    ensures keys[i] < keys[i + 1] <==> keys[i] != KEYS - 1
    decreases |keys|
  {
    hide Wf;
    hide Value;
    var n := |keys| - 1;
    var init := keys[..n];
    if i + 1 < n {
      ChainOrder(t, first, init, i);
    } else {
      assert IsNext(t, ChainEnd(first, init), keys[n]) && IsNext(t, ChainEnd(first, init[..i]), init[i]);
    }
  }

  /** Without key 0xFFFFFFFF, a chain lists exactly the present keys from `first` up to its last one. */
  lemma {:induction false} ChainComplete(t: Tree, first: nat, keys: seq<nat>, k: nat)
    requires Wf(t) && Value(t, KEYS - 1) == 0 && Chain(t, first, keys) && keys != []
    requires first <= k <= keys[|keys| - 1] && Value(t, k) != 0
    ensures k in keys
    decreases |keys|
  {
    hide Wf;
    hide Value;
    var n := |keys| - 1;
    var init := keys[..n];
    assert IsNext(t, ChainEnd(first, init), keys[n]);
    if k < keys[n] && init != [] {
      assert IsNext(t, ChainEnd(first, init[..n - 1]), init[n - 1]);
      ChainComplete(t, first, init, k);
    }
  }

  /** The recorded maximum bounds every key, so that iteration misses none. */
  ghost predicate MaxKeyBounds(t: Tree)
    requires Wf(t)
  {
    forall k: nat :: Value(t, k) != 0 ==> k <= t.maxKey
  }

  /** Inserting keeps the bound. Deleting keeps it exactly when the deleted key was not the recorded maximum
      or no key above 0 remains. */
  lemma BoundKept(t: Tree, u: Tree, k: nat, x: nat)
    requires Wf(t) && Wf(u) && MaxKeyBounds(t) && Updates(t, u, k, x)
    ensures x != 0 && u.maxKey == (if k > t.maxKey then k else t.maxKey) ==> MaxKeyBounds(u)
    ensures x == 0 && u.maxKey == (if u.height == 0 || k == t.maxKey then 0 else t.maxKey) ==>
              (MaxKeyBounds(u) <==> k != t.maxKey || forall j: nat :: j > 0 ==> Value(u, j) == 0)
  {
    hide Wf;
    if u.height == 0 { EmptyTree(u); }
  }

  lemma EmptyTree(t: Tree)
    requires Wf(t) && t.height == 0
    ensures forall k: nat :: Value(t, k) == 0
  {
    EmptyIndex(t);
  }

  lemma WfBasics(t: Tree)
    requires Wf(t)
    ensures t.at.Keys == t.nodes.Keys && t.height <= MAX_HEIGHT && (t.height == 0 <==> t.rnode == 0)
    ensures t.rnode != 0 ==> t.rnode in t.nodes && |t.nodes[t.rnode].slots| == MAP_SIZE
    ensures t.nodes != map[] ==> t.height > 0
  {
  }

  /** A key whose leaf exists is within the tree. */
  lemma LeafInside(t: Tree, k: nat)
    requires Wf(t) && k < KEYS && Path(k, 0) in t.index
    ensures t.height > 0 && k <= MaxIndex(t.height)
  {
    hide Range;
    hide SlotOf;
    hide NodeOk;
    hide ParentOk;
    RootPath(t, k);
    if k > MaxIndex(t.height) { Ancestor(t, k, 0, t.height - 1); }
  }

  lemma AboveLeaf(t: Tree, k: nat, l: nat)
    requires Wf(t) && Path(k, 0) in t.index && l < t.height
    ensures Path(k, l) in t.index
  {
    Ancestor(t, k, 0, l);
  }

  lemma HeightEnough(h: nat, g: nat, k: nat)
    requires 1 <= h <= MAX_HEIGHT && 1 <= g <= MAX_HEIGHT && (h > 1 ==> k > MaxIndex(h - 1)) && k <= MaxIndex(g)
    ensures h <= g
  {
    if g < h { MaxIndexMonotone(g, h - 1); }
  }

  lemma LeafFields(t: Tree, n: nat)
    ensures FirstLeaf(t, n).height == 1 && FirstLeaf(t, n).maxKey == t.maxKey
  {
  }

  lemma GrowFields(t: Tree, n: nat)
    requires t.rnode in t.nodes
    ensures Grow(t, n).height == t.height + 1 && Grow(t, n).maxKey == t.maxKey
  {
  }

  lemma MaxIndexMonotone(h: nat, g: nat)
    requires 0 < h <= g <= MAX_HEIGHT
    ensures MaxIndex(h) <= MaxIndex(g)
  {
    Pow64Values();
  }

  /** A node with a non-null slot is no garbage. */
  lemma UsedNode(t: Tree, n: nat, i: nat)
    requires Wf(t) && n in t.nodes && i < MAP_SIZE && t.nodes[n].slots[i] != 0
    ensures t.nodes[n].count > 0
    ensures NoGarbageBut(t, n) ==> NoGarbage(t)
  {
    assert NodeOk(t, n);
    NonNullZero(t.nodes[n].slots);
  }

  /** The largest-key hint plays no part in the contents. */
  lemma MaxKeyOnly(t: Tree, u: Tree)
    requires Wf(t) && u == t.(maxKey := u.maxKey)
    ensures Wf(u) && SameValues(t, u)
  {
    forall n | n in u.nodes ensures NodeOk(u, n) && ParentOk(u, n) { assert NodeOk(t, n) && ParentOk(t, n); }
  }

  lemma RootHasNoParent(t: Tree, n: nat)
    requires Wf(t) && n in t.nodes
    ensures t.nodes[n].parent == 0 <==> n == t.rnode
    ensures n in t.at && t.at[n].level < t.height
    ensures n != t.rnode ==> t.nodes[n].parent in t.nodes && t.nodes[n].parent in t.at && t.at[t.nodes[n].parent].level == t.at[n].level + 1
    ensures t.nodes[n].parent in t.nodes ==> |t.nodes[t.nodes[n].parent].slots| == MAP_SIZE
  {
    assert NodeOk(t, n) && ParentOk(t, n);
  }

  lemma SameWhenKeyless(t: Tree, u: Tree)
    requires Wf(t) && Wf(u) && Keyless(t) && Keyless(u)
    ensures SameValues(t, u)
  {
  }

  lemma UsedCount(t: Tree, n: nat)
    requires Wf(t) && n in t.nodes && t.nodes[n].count > 0
    ensures NoGarbageBut(t, n) ==> NoGarbage(t)
  {
  }

  /** Keys from `k` up that the height rules out are absent. */
  lemma BeyondTop(t: Tree, k: nat)
    requires Wf(t) && t.height > 0 && k < KEYS && k > MaxIndex(t.height)
    ensures forall j: nat :: k <= j < KEYS ==> Value(t, j) == 0
  {
    forall j: nat | k <= j < KEYS ensures Value(t, j) == 0 {
      RootPath(t, j);
      Absent(t, j, t.height - 1);
    }
  }

  /** A null slot at level `l`: no key of its range is present. */
  lemma SkipSubtree(t: Tree, k: nat, l: nat)
    requires Wf(t) && 0 < l < t.height && Path(k, l) in t.index && t.nodes[t.index[Path(k, l)]].slots[SlotOf(k, l)] == 0
    ensures k < (Range(k, l) + 1) * Pow64(l)
    ensures forall j: nat :: k <= j < (Range(k, l) + 1) * Pow64(l) ==> Value(t, j) == 0
    ensures (Range(k, l) + 1) * Pow64(l) >= KEYS ==> forall j: nat :: k <= j < KEYS ==> Value(t, j) == 0
    ensures k < KEYS ==> (Range(k, l) + 1) * Pow64(l) <= KEYS
  {
    NullSlot(t, k, l);
    RangeBounds(k, l);
    RangeEnd(k, l);
    forall j: nat | k <= j < (Range(k, l) + 1) * Pow64(l) ensures Value(t, j) == 0 {
      RangeBetween(k, l, j);
      Absent(t, j, l - 1);
    }
  }

  lemma RangeBounds(k: nat, l: nat)
    ensures Range(k, l) * Pow64(l) <= k < (Range(k, l) + 1) * Pow64(l)
  {
    var p := Pow64(l);
    assert k == p * (k / p) + k % p;
    assert (k / p + 1) * p == p * (k / p) + p;
  }

  lemma RangeBetween(k: nat, l: nat, j: nat)
    requires k <= j < (Range(k, l) + 1) * Pow64(l)
    ensures Range(j, l) == Range(k, l)
  {
    RangeBounds(k, l);
    var p, q := Pow64(l), Range(k, l);
    assert (q + 1) * p == p * q + p;
    DivModUnique(j, p, q, j - p * q);
  }

  /** The end of a range of keys does not pass the end of the key space. */
  lemma RangeEnd(k: nat, l: nat)
    requires l <= 5
    ensures k < KEYS ==> (Range(k, l) + 1) * Pow64(l) <= KEYS
  {
    hide Range;
    if k < KEYS {
      Pow64Values();
      var p := Pow64(l);
      var m := if l == 0 then KEYS else if l == 1 then 0x400_0000 else if l == 2 then 0x10_0000 else if l == 3 then 0x4000 else if l == 4 then 0x100 else 4;
      assert p * m == KEYS;
      RangeBounds(k, l);
      if Range(k, l) >= m { MulMonotone(p, m, Range(k, l)); }
      MulMonotone(p, Range(k, l) + 1, m);
    }
  }

  /** What overwriting the slot of a key, count untouched, does to the tree. */
  lemma ReplaceSlot(t: Tree, k: nat, item: nat)
    requires Wf(t) && item != 0 && Path(k, 0) in t.index
    ensures var leaf := t.index[Path(k, 0)];
            var u := PutItem(t, k, item, t.nodes[leaf].count);
            if Value(t, k) != 0 then Wf(u) && Updates(t, u, k, item)
            else !Wf(u) && u.nodes[leaf].count == NonNull(u.nodes[leaf].slots) - 1
  {
    var leaf := t.index[Path(k, 0)];
    var u := PutItem(t, k, item, t.nodes[leaf].count);
    assert NodeOk(t, leaf);
    if Value(t, k) != 0 {
      PutItemWf(t, k, item, t.nodes[leaf].count);
    } else {
      NonNullPut(t.nodes[leaf].slots, SlotOf(k, 0), item);
      assert !NodeOk(u, leaf);
    }
  }
}
