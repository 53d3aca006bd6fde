/** The radix tree as a heap of nodes: its invariant, the map it represents, and what each elementary
    change of the heap does to both.
 */
module RadixNodes {
  import opened Bits

  const MAP_SIZE := 64
  const MAX_HEIGHT := 6
  const KEYS := 0x1_0000_0000

  /** A `struct radix_tree_node` without its tags. Pointers are numbers, 0 is NULL; the slots of a leaf
      hold items, those of an inner node hold children. */
  datatype Node = Node(height: nat, count: nat, parent: nat, slots: seq<nat>)

  /** A node's level above the leaves and the number of the key range it covers at that level. */
  datatype Pos = Pos(level: nat, prefix: nat)

  /** The root structure and the heap; `at` and `index` record where each node hangs. */
  datatype Tree = Tree(nodes: map<nat, Node>, rnode: nat, height: nat, maxKey: nat, at: map<nat, Pos>, index: map<Pos, nat>)

  function Pow64(l: nat): (r: nat)
    ensures r > 0
  {
    if l == 0 then 1 else 64 * Pow64(l - 1)
  }

  /** The number of the key's range of `64^l` keys. */
  function Range(k: nat, l: nat): nat { DivBy(k, Pow64(l)) }

  function DivBy(a: nat, b: nat): nat
    requires b > 0
  {
    a / b
  }

  function SlotOf(k: nat, l: nat): (i: nat)
    ensures i < MAP_SIZE
  {
    Range(k, l) % 64
  }

  /** The position of the level-`l` node on the key's path. */
  function Path(k: nat, l: nat): Pos { Pos(l, Range(k, l + 1)) }

  /** Largest key a tree of the height can hold. */
  function MaxIndex(height: nat): nat {
    if height == 0 then 0 else if height >= MAX_HEIGHT then KEYS - 1 else Pow64(height) - 1
  }

  lemma RangeSplits(k: nat, l: nat)
    ensures Range(k, l) == 64 * Range(k, l + 1) + SlotOf(k, l)
    ensures Range(k, l + 1) == Range(k, l) / 64
  {
    DivDiv(k, Pow64(l), 64);
  }

  function NonNull(slots: seq<nat>): nat {
    if slots == [] then 0 else NonNull(slots[..|slots| - 1]) + if slots[|slots| - 1] != 0 then 1 else 0
  }

  lemma {:induction false} NonNullPut(slots: seq<nat>, i: nat, x: nat)
    requires i < |slots|
    ensures NonNull(slots[i := x]) == NonNull(slots) - (if slots[i] != 0 then 1 else 0) + (if x != 0 then 1 else 0)
  {
    var n := |slots| - 1;
    if i == n {
      assert slots[i := x][..n] == slots[..n];
    } else {
      assert slots[i := x][..n] == slots[..n][i := x];
      NonNullPut(slots[..n], i, x);
    }
  }

  lemma {:induction false} NonNullZero(slots: seq<nat>)
    ensures NonNull(slots) == 0 <==> forall i :: 0 <= i < |slots| ==> slots[i] == 0
  {
    if slots != [] {
      NonNullZero(slots[..|slots| - 1]);
      assert slots == slots[..|slots| - 1] + [slots[|slots| - 1]];
    }
  }

  /** One non-null slot means just that: a second one would be counted. */
  lemma NonNullOne(slots: seq<nat>, i: nat, j: nat)
    requires NonNull(slots) == 1 && i < |slots| && j < |slots| && slots[i] != 0 && slots[j] != 0
    ensures i == j
  {
    NonNullPut(slots, i, 0);
    NonNullPut(slots[i := 0], j, 0);
  }

  // ---------------------------------------------------------------- invariant

  /** A node of the right shape and count, whose children hang below it and point back to it. */
  ghost predicate NodeOk(t: Tree, n: nat)
    requires n in t.nodes && n in t.at
  {
    var node, p := t.nodes[n], t.at[n];
    && |node.slots| == MAP_SIZE && node.height == p.level < t.height && node.count == NonNull(node.slots)
    && p in t.index && t.index[p] == n
    && (p.level > 0 ==> forall i :: 0 <= i < MAP_SIZE && node.slots[i] != 0 ==>
          && node.slots[i] in t.nodes && node.slots[i] in t.at
          && t.at[node.slots[i]] == Pos(p.level - 1, 64 * p.prefix + i) && t.nodes[node.slots[i]].parent == n)
  }

  /** The root hangs at the top and has no parent; every other node is the child its parent's slot names. */
  ghost predicate ParentOk(t: Tree, n: nat)
    requires n in t.nodes && n in t.at
  {
    var node, p := t.nodes[n], t.at[n];
    if n == t.rnode then node.parent == 0 && p.level == t.height - 1 && p.prefix == 0
    else
      && p.level < t.height - 1 && node.parent in t.nodes && node.parent in t.at
      && t.at[node.parent] == Pos(p.level + 1, p.prefix / 64)
      && |t.nodes[node.parent].slots| == MAP_SIZE && t.nodes[node.parent].slots[p.prefix % 64] == n
  }

  ghost predicate Wf(t: Tree) {
    && 0 !in t.nodes && t.at.Keys == t.nodes.Keys && t.height <= MAX_HEIGHT
    && (t.height == 0 <==> t.rnode == 0) && (t.rnode != 0 ==> t.rnode in t.nodes) && (t.rnode == 0 ==> t.nodes == map[])
    && (forall n :: n in t.nodes ==> |t.nodes[n].slots| == MAP_SIZE)
    && (forall p :: p in t.index ==> t.index[p] in t.nodes && t.at[t.index[p]] == p)
    && (forall n {:trigger NodeOk(t, n)} {:trigger ParentOk(t, n)} :: n in t.nodes ==> NodeOk(t, n) && ParentOk(t, n))
  }

  /** Only the leaf for keys 0 to 63 may be without entries: nothing else is kept for nothing. */
  ghost predicate NoGarbage(t: Tree)
    requires t.at.Keys == t.nodes.Keys
  {
    forall n :: n in t.nodes && t.at[n] != Pos(0, 0) ==> t.nodes[n].count > 0
  }

  /** The item stored under a key, 0 if none. */
  ghost function Value(t: Tree, k: nat): nat
    requires Wf(t)
  {
    if Path(k, 0) in t.index then t.nodes[t.index[Path(k, 0)]].slots[SlotOf(k, 0)] else 0
  }

  // ---------------------------------------------------------------- ancestors

  /** Every position in use has its ancestor positions in use, up to the root. */
  lemma {:induction false} Ancestor(t: Tree, k: nat, l: nat, m: nat)
    requires Wf(t) && l <= m < t.height && Path(k, l) in t.index
    ensures Path(k, m) in t.index
    decreases m - l
  {
    hide Range;
    if l < m {
      var n := t.index[Path(k, l)];
      assert ParentOk(t, n) && NodeOk(t, n);
      RangeSplits(k, l + 1);
      assert NodeOk(t, t.nodes[n].parent);
      Ancestor(t, k, l + 1, m);
    }
  }

  /** Where the path of a key breaks off the key is absent. */
  lemma Absent(t: Tree, k: nat, l: nat)
    requires Wf(t) && l < t.height && Path(k, l) !in t.index
    ensures Value(t, k) == 0
  {
    if Path(k, 0) in t.index { Ancestor(t, k, 0, l); }
  }

  /** A node on the path of a key is in the slot of the node above. */
  lemma SlotAbove(t: Tree, k: nat, l: nat)
    requires Wf(t) && 0 < l < t.height && Path(k, l - 1) in t.index
    ensures Path(k, l) in t.index && t.nodes[t.index[Path(k, l)]].slots[SlotOf(k, l)] == t.index[Path(k, l - 1)] != 0
  {
    hide Range;
    var n := t.index[Path(k, l - 1)];
    assert ParentOk(t, n) && NodeOk(t, n);
    RangeSplits(k, l);
    assert NodeOk(t, t.nodes[n].parent);
  }

  /** A null slot on the path of a key: no node hangs there. */
  lemma NullSlot(t: Tree, k: nat, l: nat)
    requires Wf(t) && 0 < l < t.height && Path(k, l) in t.index
    requires t.nodes[t.index[Path(k, l)]].slots[SlotOf(k, l)] == 0
    ensures Path(k, l - 1) !in t.index
  {
    hide Range;
    if Path(k, l - 1) in t.index { SlotAbove(t, k, l); }
  }

  /** A non-null slot leads to the next node on the path. */
  lemma NextOnPath(t: Tree, k: nat, l: nat)
    requires Wf(t) && 0 < l < t.height && Path(k, l) in t.index
    requires t.nodes[t.index[Path(k, l)]].slots[SlotOf(k, l)] != 0
    ensures Path(k, l - 1) in t.index && t.index[Path(k, l - 1)] == t.nodes[t.index[Path(k, l)]].slots[SlotOf(k, l)]
  {
    hide Range;
    hide SlotOf;
    var n := t.index[Path(k, l)];
    assert NodeOk(t, n);
    RangeSplits(k, l);
    assert NodeOk(t, t.nodes[n].slots[SlotOf(k, l)]);
  }

  /** The root is on the path of exactly the keys the height allows. */
  lemma RootPath(t: Tree, k: nat)
    requires Wf(t) && t.height > 0 && k < KEYS
    ensures if k <= MaxIndex(t.height) then Path(k, t.height - 1) in t.index && t.index[Path(k, t.height - 1)] == t.rnode
            else Path(k, t.height - 1) !in t.index
  {
    hide Range;
    TopRange(k, t.height);
    assert ParentOk(t, t.rnode) && NodeOk(t, t.rnode);
    if Path(k, t.height - 1) in t.index {
      var n := t.index[Path(k, t.height - 1)];
      assert NodeOk(t, n) && ParentOk(t, n);
    }
  }

  lemma TopRange(k: nat, height: nat)
    requires 0 < height <= MAX_HEIGHT && k < KEYS
    ensures Range(k, height) == 0 <==> k <= MaxIndex(height)
  {
    Pow64Values();
    var p := Pow64(height);
    assert k == p * (k / p) + k % p;
    if k < p { DivModUnique(k, p, 0, k); }
  }

  lemma Pow64Values()
    ensures Pow64(1) == 64 && Pow64(2) == 4096 && Pow64(3) == 0x4_0000 && Pow64(4) == 0x100_0000 && Pow64(5) == 0x4000_0000
    ensures Pow64(6) == 0x10_0000_0000
  {
  }

  // ---------------------------------------------------------------- elementary changes

  ghost predicate SameValues(t: Tree, u: Tree)
    requires Wf(t) && Wf(u)
  {
    forall k: nat :: Value(u, k) == Value(t, k)
  }

  function NullSlots(): (r: seq<nat>)
    ensures |r| == MAP_SIZE && forall i :: 0 <= i < MAP_SIZE ==> r[i] == 0
  {
    seq(MAP_SIZE, _ => 0)
  }

  /** The first node of an empty tree: a leaf. */
  function FirstLeaf(t: Tree, n: nat): Tree {
    Tree(map[n := Node(0, 0, 0, NullSlots())], n, 1, t.maxKey, map[n := Pos(0, 0)], map[Pos(0, 0) := n])
  }

  lemma FirstLeafWf(t: Tree, n: nat)
    requires Wf(t) && t.height == 0 && n != 0
    ensures Wf(FirstLeaf(t, n)) && SameValues(t, FirstLeaf(t, n)) && NoGarbage(FirstLeaf(t, n))
  {
    hide NonNull;
    NonNullZero(NullSlots());
    var u := FirstLeaf(t, n);
    assert NodeOk(u, n) && ParentOk(u, n);
    EmptyIndex(t);
  }

  lemma EmptyIndex(t: Tree)
    requires Wf(t) && t.nodes == map[]
    ensures forall k: nat :: Value(t, k) == 0
  {
  }

  /** A new root above the old one, which becomes its slot 0. */
  function Grow(t: Tree, n: nat): Tree
    requires t.rnode in t.nodes
  {
    t.(nodes := t.nodes[t.rnode := t.nodes[t.rnode].(parent := n)][n := Node(t.height, 1, 0, NullSlots()[0 := t.rnode])],
       rnode := n, height := t.height + 1, at := t.at[n := Pos(t.height, 0)], index := t.index[Pos(t.height, 0) := n])
  }

  lemma GrowNode(t: Tree, n: nat, m: nat)
    requires Wf(t) && 0 < t.height < MAX_HEIGHT && n != 0 && n !in t.nodes && m in Grow(t, n).nodes
    ensures NodeOk(Grow(t, n), m) && ParentOk(Grow(t, n), m)
  {
    hide NonNull;
    assert ParentOk(t, t.rnode) && NodeOk(t, t.rnode);
    if m == n {
      NonNullZero(NullSlots());
      NonNullPut(NullSlots(), 0, t.rnode);
    } else {
      assert NodeOk(t, m) && ParentOk(t, m);
    }
  }

  lemma GrowWf(t: Tree, n: nat)
    requires Wf(t) && 0 < t.height < MAX_HEIGHT && n != 0 && n !in t.nodes
    ensures Wf(Grow(t, n)) && SameValues(t, Grow(t, n)) && (NoGarbage(t) ==> NoGarbage(Grow(t, n)))
  {
    hide NonNull;
    hide Range;
    hide NodeOk;
    hide ParentOk;
    var u := Grow(t, n);
    TopFree(t);
    forall m | m in u.nodes ensures NodeOk(u, m) && ParentOk(u, m) { GrowNode(t, n, m); }
    SameLeaves(t, u);
  }

  lemma TopFree(t: Tree)
    requires Wf(t)
    ensures forall p :: p in t.index ==> p.level < t.height
  {
    forall p | p in t.index ensures p.level < t.height { assert NodeOk(t, t.index[p]); }
  }

  /** Trees with the same leaves in the same places hold the same entries. */
  lemma SameLeaves(t: Tree, u: Tree)
    requires Wf(t) && Wf(u)
    requires forall p: Pos :: p.level == 0 ==> (p in t.index <==> p in u.index)
    requires forall p: Pos :: p.level == 0 && p in t.index ==> u.nodes[u.index[p]].slots == t.nodes[t.index[p]].slots
    ensures SameValues(t, u)
  {
    hide Range;
  }

  /** A new, empty node in a null slot of the level-`l` node on the path of `k`. */
  function Hang(t: Tree, k: nat, l: nat, n: nat): Tree
    requires l > 0 && Path(k, l) in t.index && t.index[Path(k, l)] in t.nodes && |t.nodes[t.index[Path(k, l)]].slots| == MAP_SIZE
  {
    var above := t.index[Path(k, l)];
    var node := t.nodes[above];
    var slots: seq<nat> := node.slots[SlotOf(k, l) := n];
    t.(nodes := t.nodes[above := node.(slots := slots, count := node.count + 1)][n := Node(l - 1, 0, above, NullSlots())],
       at := t.at[n := Path(k, l - 1)], index := t.index[Path(k, l - 1) := n])
  }

  lemma HangNode(t: Tree, k: nat, l: nat, n: nat, m: nat)
    requires Wf(t) && 0 < l < t.height && Path(k, l) in t.index && n != 0 && n !in t.nodes && m in Hang(t, k, l, n).nodes
    requires t.nodes[t.index[Path(k, l)]].slots[SlotOf(k, l)] == 0 && Path(k, l - 1) !in t.index
    ensures NodeOk(Hang(t, k, l, n), m) && ParentOk(Hang(t, k, l, n), m)
  {
    hide Range;
    hide SlotOf;
    hide NonNull;
    var above := t.index[Path(k, l)];
    assert NodeOk(t, above) && ParentOk(t, above);
    RangeSplits(k, l);
    if m == n {
      NonNullZero(NullSlots());
      DivModUnique(Range(k, l), 64, Range(k, l + 1), SlotOf(k, l));
    } else {
      NonNullPut(t.nodes[above].slots, SlotOf(k, l), n);
      assert NodeOk(t, m) && ParentOk(t, m);
    }
  }

  lemma HangWf(t: Tree, k: nat, l: nat, n: nat)
    requires Wf(t) && 0 < l < t.height && Path(k, l) in t.index && n != 0 && n !in t.nodes
    requires t.nodes[t.index[Path(k, l)]].slots[SlotOf(k, l)] == 0
    ensures Wf(Hang(t, k, l, n)) && SameValues(t, Hang(t, k, l, n))
    ensures NoGarbageBut(t, t.index[Path(k, l)]) ==> NoGarbageBut(Hang(t, k, l, n), n)
  {
    hide Range;
    hide SlotOf;
    hide NonNull;
    hide NodeOk;
    hide ParentOk;
    var u := Hang(t, k, l, n);
    NullSlot(t, k, l);
    forall m | m in u.nodes ensures NodeOk(u, m) && ParentOk(u, m) { HangNode(t, k, l, n, m); }
    HangValues(t, k, l, n);
  }

  lemma HangValues(t: Tree, k: nat, l: nat, n: nat)
    requires Wf(t) && 0 < l < t.height && Path(k, l) in t.index && n != 0 && n !in t.nodes && Wf(Hang(t, k, l, n))
    requires Path(k, l - 1) !in t.index
    ensures SameValues(t, Hang(t, k, l, n))
  {
    hide Range;
    hide SlotOf;
    hide NodeOk;
    hide ParentOk;
    var u := Hang(t, k, l, n);
    forall j: nat ensures Value(u, j) == Value(t, j) {
      if Path(j, 0) in t.index {
        var leaf := t.index[Path(j, 0)];
        assert t.at[leaf] == Path(j, 0) && t.at[t.index[Path(k, l)]] == Path(k, l);
      }
    }
  }

  /** As `NoGarbage`, leaving out of account the node being worked on. */
  ghost predicate NoGarbageBut(t: Tree, m: nat)
    requires t.at.Keys == t.nodes.Keys
  {
    forall n :: n in t.nodes && n != m && t.at[n] != Pos(0, 0) ==> t.nodes[n].count > 0
  }

  /** Storing `x` under a key whose leaf exists. */
  function PutItem(t: Tree, k: nat, x: nat, count: nat): Tree
    requires Path(k, 0) in t.index && t.index[Path(k, 0)] in t.nodes && |t.nodes[t.index[Path(k, 0)]].slots| == MAP_SIZE
  {
    var leaf := t.index[Path(k, 0)];
    var slots: seq<nat> := t.nodes[leaf].slots[SlotOf(k, 0) := x];
    t.(nodes := t.nodes[leaf := t.nodes[leaf].(slots := slots, count := count)])
  }

  lemma PutItemNode(t: Tree, k: nat, x: nat, count: nat, m: nat)
    requires Wf(t) && Path(k, 0) in t.index && m in t.nodes
    requires count == t.nodes[t.index[Path(k, 0)]].count - (if t.nodes[t.index[Path(k, 0)]].slots[SlotOf(k, 0)] != 0 then 1 else 0) + (if x != 0 then 1 else 0)
    ensures NodeOk(PutItem(t, k, x, count), m) && ParentOk(PutItem(t, k, x, count), m)
  {
    hide Range;
    hide SlotOf;
    hide NonNull;
    var leaf := t.index[Path(k, 0)];
    NonNullPut(t.nodes[leaf].slots, SlotOf(k, 0), x);
    assert NodeOk(t, leaf) && NodeOk(t, m) && ParentOk(t, m);
    if m != t.rnode { assert NodeOk(t, t.nodes[m].parent); }
  }

  lemma PutItemWf(t: Tree, k: nat, x: nat, count: nat)
    requires Wf(t) && Path(k, 0) in t.index
    requires count == t.nodes[t.index[Path(k, 0)]].count - (if Value(t, k) != 0 then 1 else 0) + (if x != 0 then 1 else 0)
    ensures Wf(PutItem(t, k, x, count))
    ensures forall j: nat :: Value(PutItem(t, k, x, count), j) == if j == k then x else Value(t, j)
    ensures NoGarbageBut(t, t.index[Path(k, 0)]) ==> NoGarbageBut(PutItem(t, k, x, count), t.index[Path(k, 0)])
  {
    hide Range;
    hide SlotOf;
    hide NonNull;
    hide NodeOk;
    hide ParentOk;
    var u := PutItem(t, k, x, count);
    forall m | m in u.nodes ensures NodeOk(u, m) && ParentOk(u, m) { PutItemNode(t, k, x, count, m); }
    forall j: nat ensures Value(u, j) == if j == k then x else Value(t, j) {
      SameSlot(j, k);
    }
  }

  lemma SameSlot(j: nat, k: nat)
    ensures Path(j, 0) == Path(k, 0) && SlotOf(j, 0) == SlotOf(k, 0) <==> j == k
  {
    hide Range;
    RangeSplits(j, 0);
    RangeSplits(k, 0);
    RangeZero(j);
    RangeZero(k);
  }

  lemma RangeZero(k: nat)
    ensures Range(k, 0) == k
  {
    DivModUnique(k, 1, k, 0);
  }

  /** Taking an empty node that is not the root out of its parent. */
  function Prune(t: Tree, m: nat): Tree
    requires m in t.nodes && m in t.at && t.nodes[m].parent in t.nodes && |t.nodes[t.nodes[m].parent].slots| == MAP_SIZE
    requires t.nodes[t.nodes[m].parent].count > 0
  {
    var above := t.nodes[m].parent;
    var node := t.nodes[above];
    var slots: seq<nat> := node.slots[t.at[m].prefix % 64 := 0];
    t.(nodes := t.nodes[above := node.(slots := slots, count := node.count - 1)] - {m}, at := t.at - {m}, index := t.index - {t.at[m]})
  }

  lemma PruneOk(t: Tree, m: nat)
    requires Wf(t) && m in t.nodes && m != t.rnode
    ensures var above := t.nodes[m].parent;
            && above in t.nodes && above != m && above != 0 && t.at[above].level > 0 && t.nodes[above].count > 0
            && t.nodes[above].slots[t.at[m].prefix % 64] == m
            && forall i :: 0 <= i < MAP_SIZE && t.nodes[above].slots[i] == m ==> i == t.at[m].prefix % 64
  {
    hide NonNull;
    assert NodeOk(t, m) && ParentOk(t, m);
    var above := t.nodes[m].parent;
    assert NodeOk(t, above);
    NonNullZero(t.nodes[above].slots);
  }

  lemma PruneNode(t: Tree, m: nat, x: nat)
    requires Wf(t) && m in t.nodes && m != t.rnode && t.nodes[m].count == 0
    requires t.nodes[m].parent in t.nodes && t.nodes[t.nodes[m].parent].count > 0 && x in Prune(t, m).nodes
    ensures NodeOk(Prune(t, m), x) && ParentOk(Prune(t, m), x)
  {
    hide NonNull;
    var above := t.nodes[m].parent;
    PruneOk(t, m);
    assert NodeOk(t, m) && NodeOk(t, above) && NodeOk(t, x) && ParentOk(t, x);
    NonNullPut(t.nodes[above].slots, t.at[m].prefix % 64, 0);
    NonNullZero(t.nodes[m].slots);
    if x != t.rnode { PruneOk(t, x); }
  }

  lemma PruneWf(t: Tree, m: nat)
    requires Wf(t) && m in t.nodes && m != t.rnode && t.nodes[m].count == 0
    requires t.nodes[m].parent in t.nodes && t.nodes[t.nodes[m].parent].count > 0
    ensures Wf(Prune(t, m)) && SameValues(t, Prune(t, m))
    ensures NoGarbageBut(t, m) ==> NoGarbageBut(Prune(t, m), t.nodes[m].parent)
  {
    hide NonNull;
    hide Range;
    hide SlotOf;
    hide NodeOk;
    hide ParentOk;
    var u := Prune(t, m);
    PruneOk(t, m);
    EmptyNode(t, m);
    forall x | x in u.nodes ensures NodeOk(u, x) && ParentOk(u, x) { PruneNode(t, m, x); }
    forall j: nat ensures Value(u, j) == Value(t, j) {
      if Path(j, 0) in t.index {
        var leaf := t.index[Path(j, 0)];
        assert t.at[leaf] == Path(j, 0);
      }
    }
  }

  lemma EmptyNode(t: Tree, m: nat)
    requires Wf(t) && m in t.nodes && t.nodes[m].count == 0
    ensures forall i :: 0 <= i < MAP_SIZE ==> t.nodes[m].slots[i] == 0
    ensures t.at[m] in t.index && t.index[t.at[m]] == m
  {
    assert NodeOk(t, m);
    NonNullZero(t.nodes[m].slots);
  }

  /** A root without children is the only node. */
  lemma RootAlone(t: Tree)
    requires Wf(t) && t.height > 0 && t.nodes[t.rnode].count == 0
    ensures t.nodes.Keys == {t.rnode}
    ensures forall k: nat :: Value(t, k) == 0
  {
    hide NonNull;
    EmptyNode(t, t.rnode);
    forall n | n in t.nodes ensures n == t.rnode {
      if n != t.rnode { UnderRoot(t, n); }
    }
    forall k: nat ensures Value(t, k) == 0 {
      if Path(k, 0) in t.index { assert t.index[Path(k, 0)] == t.rnode; }
    }
  }

  /** Every node but the root lies under some non-null slot of the root. */
  lemma UnderRoot(t: Tree, n: nat)
    requires Wf(t) && n in t.nodes && n != t.rnode
    ensures exists i :: 0 <= i < MAP_SIZE && t.nodes[t.rnode].slots[i] != 0
  {
    hide Range;
    hide SlotOf;
    assert NodeOk(t, n) && ParentOk(t, n);
    var l, k := t.at[n].level, t.at[n].prefix * Pow64(t.at[n].level + 1);
    RangeOfMultiple(t.at[n].prefix, l + 1);
    assert Path(k, l) == t.at[n];
    Ancestor(t, k, l, t.height - 2);
    SlotAbove(t, k, t.height - 1);
    var top := t.index[Path(k, t.height - 1)];
    assert NodeOk(t, top) && ParentOk(t, top);
    assert t.nodes[t.rnode].slots[SlotOf(k, t.height - 1)] != 0;
  }

  lemma RangeOfMultiple(p: nat, l: nat)
    ensures Range(p * Pow64(l), l) == p
  {
    DivModUnique(p * Pow64(l), Pow64(l), p, 0);
  }

  /** The root's only child, in slot 0, becomes the root. */
  function Lower(t: Tree): Tree
    requires t.rnode in t.nodes && |t.nodes[t.rnode].slots| == MAP_SIZE && t.nodes[t.rnode].slots[0] in t.nodes && t.height > 0 && t.rnode in t.at
  {
    var child := t.nodes[t.rnode].slots[0];
    t.(nodes := t.nodes[child := t.nodes[child].(parent := 0)] - {t.rnode}, rnode := child, height := t.height - 1,
       at := t.at - {t.rnode}, index := t.index - {t.at[t.rnode]})
  }

  lemma OnlyChild(t: Tree)
    requires Wf(t) && t.height > 1 && t.nodes[t.rnode].count == 1 && t.nodes[t.rnode].slots[0] != 0
    ensures var child := t.nodes[t.rnode].slots[0];
            && child in t.nodes && child != t.rnode && t.at[child] == Pos(t.height - 2, 0)
            && forall m :: m in t.nodes && t.at[m].level == t.height - 2 ==> m == child
  {
    hide NonNull;
    assert NodeOk(t, t.rnode) && ParentOk(t, t.rnode);
    var child := t.nodes[t.rnode].slots[0];
    assert NodeOk(t, child);
    forall m | m in t.nodes && t.at[m].level == t.height - 2 ensures m == child {
      assert NodeOk(t, m) && ParentOk(t, m);
      var above := t.nodes[m].parent;
      assert NodeOk(t, above) && ParentOk(t, above);
      NonNullOne(t.nodes[t.rnode].slots, 0, t.at[m].prefix % 64);
    }
  }

  lemma LowerNode(t: Tree, x: nat)
    requires Wf(t) && t.height > 1 && t.nodes[t.rnode].count == 1 && t.nodes[t.rnode].slots[0] in t.nodes && x in Lower(t).nodes
    ensures NodeOk(Lower(t), x) && ParentOk(Lower(t), x)
  {
    hide NonNull;
    OnlyChild(t);
    assert NodeOk(t, x) && ParentOk(t, x) && ParentOk(t, t.rnode);
    if x != t.nodes[t.rnode].slots[0] { assert NodeOk(t, t.nodes[x].parent); }
  }

  lemma LowerWf(t: Tree)
    requires Wf(t) && t.height > 1 && t.nodes[t.rnode].count == 1 && t.nodes[t.rnode].slots[0] != 0
    ensures t.nodes[t.rnode].slots[0] in t.nodes && Wf(Lower(t)) && SameValues(t, Lower(t))
    ensures NoGarbage(t) ==> NoGarbage(Lower(t))
  {
    hide NonNull;
    hide Range;
    hide NodeOk;
    hide ParentOk;
    OnlyChild(t);
    RootAtTop(t);
    var u := Lower(t);
    forall x | x in u.nodes ensures NodeOk(u, x) && ParentOk(u, x) { LowerNode(t, x); }
    SameLeaves(t, u);
  }

  lemma RootAtTop(t: Tree)
    requires Wf(t) && t.height > 0
    ensures t.at[t.rnode] == Pos(t.height - 1, 0) && t.nodes[t.rnode].parent == 0
    ensures t.at[t.rnode] in t.index && t.index[t.at[t.rnode]] == t.rnode
  {
    assert NodeOk(t, t.rnode) && ParentOk(t, t.rnode);
  }

  /** The initial tree: no node, height 0. */
  function Cleared(): Tree { Tree(map[], 0, 0, 0, map[], map[]) }

  lemma ClearedWf()
    ensures Wf(Cleared()) && NoGarbage(Cleared()) && forall k: nat :: Value(Cleared(), k) == 0
  {
  }

  // ---------------------------------------------------------------- nothing is kept for nothing

  /** In a tree without garbage a node off the leftmost spine has a key below it. */
  lemma {:induction false} KeyBelow(t: Tree, n: nat) returns (k: nat)
    requires Wf(t) && NoGarbage(t) && n in t.nodes && t.at[n].prefix != 0
    ensures Value(t, k) != 0
    decreases t.at[n].level
  {
    hide NonNull;
    hide Range;
    hide SlotOf;
    assert NodeOk(t, n);
    var p := t.at[n];
    NonNullZero(t.nodes[n].slots);
    var i :| 0 <= i < MAP_SIZE && t.nodes[n].slots[i] != 0;
    if p.level == 0 {
      k := 64 * p.prefix + i;
      LeafKey(p.prefix, i);
    } else {
      assert NodeOk(t, t.nodes[n].slots[i]);
      k := KeyBelow(t, t.nodes[n].slots[i]);
    }
  }

  lemma LeafKey(prefix: nat, i: nat)
    requires i < MAP_SIZE
    ensures Path(64 * prefix + i, 0) == Pos(0, prefix) && SlotOf(64 * prefix + i, 0) == i
  {
    var k := 64 * prefix + i;
    RangeZero(k);
    RangeSplits(k, 0);
    DivModUnique(k, 64, prefix, i);
  }

  lemma RootLeaf(t: Tree, i: nat)
    requires Wf(t) && t.height == 1 && i < MAP_SIZE
    ensures Value(t, i) == t.nodes[t.rnode].slots[i]
  {
    hide Range;
    hide SlotOf;
    RootAtTop(t);
    LeafKey(0, i);
  }

  /** A tree without keys and without garbage is a bare leftmost spine, which shrinking takes down. */
  lemma KeylessSpine(t: Tree)
    requires Wf(t) && NoGarbage(t) && t.height > 0 && forall k: nat :: Value(t, k) == 0
    ensures t.height > 1 ==> t.nodes[t.rnode].count == 1 && t.nodes[t.rnode].slots[0] != 0
    ensures t.height == 1 ==> t.nodes[t.rnode].count == 0
  {
    hide NonNull;
    hide Range;
    hide SlotOf;
    RootAtTop(t);
    assert NodeOk(t, t.rnode);
    var slots := t.nodes[t.rnode].slots;
    NonNullZero(slots);
    forall i | 0 <= i < MAP_SIZE && slots[i] != 0 ensures t.height > 1 && i == 0 {
      if t.height == 1 {
        RootLeaf(t, i);
      } else if i != 0 {
        var k := KeyBelow(t, slots[i]);
      }
    }
    NonNullPut(slots, 0, 0);
    NonNullZero(slots[0 := 0]);
  }
}
