/** Walking a flattened device tree: children, properties, paths and pre-order.

    Every walker moves a byte cursor over the structure block from token to token. The
    block is the layout of some tree; offsets are where its nodes begin.
 */
module Fdt {
  import opened FdtFormat

  const SLASH: byte := 47

  ghost predicate Blob(block: seq<byte>, items: seq<Item>) {
    AllOk(items) && block == Encode(items)
  }

  ghost predicate NodeAt(items: seq<Item>, k: nat, t: Tree) {
    TreeOk(t) && At(items, k, Items(t))
  }

  /** The offset of an item, or -1 for none. */
  ghost function Offset(items: seq<Item>, j: int): int
    requires AllOk(items) && j <= |items|
  {
    if j < 0 then -1 else Off(items, j)
  }

  // -------------------------------------------------------------- where the parts of a node are

  /** Where a node's children start. */
  function KidsAt(k: nat, t: Tree): nat { k + 1 + |t.props| }

  lemma AtItem(items: seq<Item>, k: nat, part: seq<Item>, i: nat)
    requires At(items, k, part) && i < |part|
    ensures items[k + i] == part[i]
  {
    assert items[k..k + |part|][i] == items[k + i];
  }

  lemma AtPrefix(items: seq<Item>, k: nat, part: seq<Item>, i: nat)
    requires At(items, k, part) && i <= |part|
    ensures items[k..k + i] == part[..i]
  {
    forall j | 0 <= j < i ensures items[k..k + i][j] == part[..i][j] { AtItem(items, k, part, j); }
  }

  lemma AtSplit(items: seq<Item>, k: nat, a: seq<Item>, b: seq<Item>)
    requires At(items, k, a + b)
    ensures At(items, k, a) && At(items, k + |a|, b)
  {
    AtPrefix(items, k, a + b, |a|);
    assert (a + b)[..|a|] == a;
    forall j | 0 <= j < |b| ensures items[k + |a|..k + |a| + |b|][j] == b[j] { AtItem(items, k, a + b, |a| + j); }
  }

  lemma NodeParts(items: seq<Item>, k: nat, t: Tree)
    requires NodeAt(items, k, t)
    ensures k + |Items(t)| <= |items| && items[k] == Begin(t.name)
    ensures forall x :: k < x < KidsAt(k, t) ==> items[x] == t.props[x - k - 1] && (items[x].Prop? || items[x].Nop?)
    ensures At(items, KidsAt(k, t), ForestItems(t.kids)) && ForestOk(t.kids)
    ensures KidsAt(k, t) + |ForestItems(t.kids)| == k + |Items(t)| - 1 && items[k + |Items(t)| - 1] == End
  {
    hide At;
    hide ForestItems;
    hide ForestOk;
    var head, f := [Begin(t.name)], ForestItems(t.kids);
    AtSplit(items, k, head + t.props + f, [End]);
    AtSplit(items, k, head + t.props, f);
    AtSplit(items, k, head, t.props);
    AtItem(items, k, head, 0);
    AtItem(items, k + |head + t.props + f|, [End], 0);
    forall x | k < x < KidsAt(k, t) ensures items[x] == t.props[x - k - 1] { AtItem(items, k + 1, t.props, x - k - 1); }
    AtFits(items, k, Items(t));
  }

  lemma AtFits(items: seq<Item>, k: nat, part: seq<Item>)
    requires At(items, k, part)
    ensures k + |part| <= |items|
  {
  }

  lemma ForestParts(items: seq<Item>, k: nat, f: Forest)
    requires At(items, k, ForestItems(f)) && ForestOk(f)
    ensures f.Gap? ==> items[k] == Nop && At(items, k + 1, ForestItems(f.rest)) && ForestOk(f.rest)
    ensures f.Cons? ==> NodeAt(items, k, f.head) && At(items, k + |Items(f.head)|, ForestItems(f.tail)) && ForestOk(f.tail)
  {
    hide Items;
    hide TreeOk;
    hide At;
    if f.Gap? {
      AtSplit(items, k, [Nop], ForestItems(f.rest));
      AtItem(items, k, [Nop], 0);
    } else if f.Cons? {
      AtSplit(items, k, Items(f.head), ForestItems(f.tail));
    }
  }

  /** A forest followed by its parent's end, the block's final token, or nothing. */
  ghost predicate SiblingsAt(items: seq<Item>, k: nat, f: Forest) {
    && ForestOk(f) && At(items, k, ForestItems(f))
    && var e := k + |ForestItems(f)|; e == |items| || items[e].End? || items[e].Finish?
  }

  lemma DepthNext(items: seq<Item>, k: nat, i: nat)
    requires k <= i < |items|
    ensures Depth(items[k..i + 1]) == Depth(items[k..i]) + match items[i] case Begin(_) => 1 case End => -1 case _ => 0
  {
    assert items[k..i + 1][..i - k] == items[k..i];
  }

  lemma NoDepth(items: seq<Item>, b: nat)
    requires b <= |items|
    ensures Depth(items[b..b]) == 0
  {
  }

  // -------------------------------------------------------------- the cursor

  method StrLen(block: seq<byte>, p: nat, ghost n: nat) returns (len: nat)
    requires p + n < |block| && block[p + n] == 0 && forall i :: p <= i < p + n ==> block[i] != 0
    ensures len == n
  {
    len := 0;
    while block[p + len] != 0
      invariant len <= n
      decreases n - len
    {
      len := len + 1;
    }
  }

  /** Read the token under the cursor and move past its name or value. */
  method Step(block: seq<byte>, p: nat, ghost items: seq<Item>, ghost k: nat) returns (token: nat, q: nat)
    requires Blob(block, items) && k < |items| && p == Off(items, k)
    ensures token == Token(items[k]) && q == Off(items, k + 1) && p < q <= |block|
  {
    hide Encode;
    hide Off;
    TokenAt(items, k);
    token := Word(block, p);
    q := p + 4;
    if token == 1 {
      BeginAt(items, k);
      ghost var name := items[k].name;
      assert ItemOk(items[k]);
      forall i | q <= i < q + |name| ensures block[i] != 0 { assert block[q..q + |name|][i - q] == name[i - q]; }
      var len := StrLen(block, q, |name|);
      q := q + Align(len + 1);
    } else if token == 3 {
      PropAt(items, k);
      var len := Word(block, q);
      q := q + 8 + Align(len);
    }
  }

  // -------------------------------------------------------------- children

  /** The first child in a forest laid out at `k`, or -1. */
  function FirstIn(f: Forest, k: nat): int {
    match f
    case Nil => -1
    case Gap(rest) => FirstIn(rest, k + 1)
    case Cons(_, _) => k
  }

  /** The offset of a node's first child, or -1. */
  method FirstSubnode(block: seq<byte>, offset: int, ghost items: seq<Item>, ghost k: nat, ghost t: Tree) returns (r: int)
    requires Blob(block, items)
    requires 0 <= offset < |block| ==> NodeAt(items, k, t) && offset == Off(items, k)
    ensures !(0 <= offset < |block|) ==> r == -1
    ensures 0 <= offset < |block| ==> FirstIn(t.kids, KidsAt(k, t)) < |items| && r == Offset(items, FirstIn(t.kids, KidsAt(k, t)))
  {
    hide Off;
    hide Encode;
    hide NodeAt;
    hide Items;
    if offset < 0 || offset >= |block| { return -1; }
    NodeParts(items, k, t);
    OffEnd(items);
    var p := offset;
    var depth, initial := -1, true;
    ghost var i: nat, f, base: nat := k, t.kids, KidsAt(k, t);
    OffMonotone(items, k, |items|);
    while p < |block|
      invariant k <= i < k + |Items(t)| && p == Off(items, i) < |block|
      invariant if initial then i == k else k < i && depth == 0
      invariant base == if i < KidsAt(k, t) then KidsAt(k, t) else i
      invariant At(items, base, ForestItems(f)) && ForestOk(f) && base + |ForestItems(f)| == k + |Items(t)| - 1
      invariant FirstIn(f, base) == FirstIn(t.kids, KidsAt(k, t)) && (i <= KidsAt(k, t) ==> f == t.kids)
      decreases |items| - i
    {
      if i == base {
        ForestParts(items, base, f);
        if f.Cons? { NodeParts(items, base, f.head); }
      }
      var token, q := Step(block, p, items, i);
      if token == 1 {
        if initial {
          initial, depth := false, 0;
        } else if depth == 0 {
          return p;
        } else {
          depth := depth + 1;
        }
      } else if token == 2 {
        if depth == 0 { return -1; }
        depth := depth - 1;
      } else if token == 9 {
        return -1;
      }
      if i == base { f, base := f.rest, base + 1; }
      i := i + 1;
      p := q;
      OffMonotone(items, i, |items|);
    }
    return -1;
  }

  /** The depth within a node's items is positive until its end. */
  lemma NodeDepth(items: seq<Item>, k: nat, t: Tree, i: nat)
    requires NodeAt(items, k, t) && k < i <= k + |Items(t)|
    ensures Depth(items[k..i]) >= 0 && (Depth(items[k..i]) == 0 <==> i == k + |Items(t)|)
  {
    TreeDepth(t, i - k);
    assert items[k..i] == items[k..k + |Items(t)|][..i - k];
  }

  /** The offset of the next child of the same parent, or -1. `rest` are the siblings that follow. */
  method NextSubnode(block: seq<byte>, offset: int, ghost items: seq<Item>, ghost k: nat, ghost t: Tree, ghost rest: Forest)
      returns (r: int)
    requires Blob(block, items)
    requires 0 <= offset < |block| ==> NodeAt(items, k, t) && offset == Off(items, k)
    requires 0 <= offset < |block| ==> SiblingsAt(items, k + |Items(t)|, rest)
    ensures !(0 <= offset < |block|) ==> r == -1
    ensures 0 <= offset < |block| ==>
      FirstIn(rest, k + |Items(t)|) < |items| && r == Offset(items, FirstIn(rest, k + |Items(t)|))
  {
    hide Off;
    hide Encode;
    if offset < 0 || offset >= |block| { return -1; }
    OffEnd(items);
    OffMonotone(items, k, |items|);
    assert Depth(items[k..k]) == 0;
    var p, depth := offset, 0;
    ghost var i: nat, e: nat := k, k + |Items(t)|;
    while p < |block|
      invariant k <= i < e <= |items| && p == Off(items, i) < |block| && depth == Depth(items[k..i])
      decreases |items| - i
    {
      var token, q := Step(block, p, items, i);
      DepthNext(items, k, i);
      NodeDepth(items, k, t, i + 1);
      TreeItem(t, i - k);
      assert items[i] == items[k..e][i - k];
      p := q;
      if token == 1 {
        depth := depth + 1;
      } else if token == 2 {
        depth := depth - 1;
        if depth == 0 {
          r := SkipToSibling(block, p, items, e, rest);
          return;
        }
      } else if token == 9 {
        return -1;
      }
      i := i + 1;
      OffMonotone(items, i, |items|);
    }
    return -1;
  }

  /** From a node's end, pass over no-ops to the next node of the same level. */
  method SkipToSibling(block: seq<byte>, start: nat, ghost items: seq<Item>, ghost e: nat, ghost rest: Forest) returns (r: int)
    requires Blob(block, items) && e <= |items| && start == Off(items, e)
    requires SiblingsAt(items, e, rest)
    ensures FirstIn(rest, e) < |items| && r == Offset(items, FirstIn(rest, e))
  {
    hide Off;
    hide Encode;
    OffEnd(items);
    var p := start;
    ghost var f, i := rest, e;
    while p < |block|
      invariant SiblingsAt(items, i, f) && FirstIn(f, i) == FirstIn(rest, e)
      invariant p == Off(items, i)
      decreases |items| - i
    {
      if i < |items| { TokenAt(items, i); }
      ForestParts(items, i, f);
      if f.Cons? { NodeParts(items, i, f.head); }
      var token := Word(block, p);
      if token == 1 { return p; }
      if token == 2 || token == 9 { return -1; }
      p := p + 4;
      f, i := f.rest, i + 1;
    }
    if i < |items| { OffMonotone(items, i, |items|); }
    NoItems(f);
    return -1;
  }

  lemma NoItems(f: Forest)
    ensures f.Nil? || |ForestItems(f)| > 0
  {
    assert f.Cons? ==> |Items(f.head)| > 0;
  }

  /** All children of a forest laid out at `k`, in order. */
  ghost function KidsIn(f: Forest, k: nat): seq<nat> {
    match f
    case Nil => []
    case Gap(rest) => KidsIn(rest, k + 1)
    case Cons(head, tail) => [k] + KidsIn(tail, k + |Items(head)|)
  }

  /** The part of a forest that starts with its first child, and where it is. */
  function Rest(f: Forest): Forest {
    if f.Gap? then Rest(f.rest) else f
  }

  lemma SiblingsParts(items: seq<Item>, k: nat, f: Forest)
    requires SiblingsAt(items, k, f)
    ensures f.Gap? ==> SiblingsAt(items, k + 1, f.rest)
    ensures f.Cons? ==> k < |items| && NodeAt(items, k, f.head) && SiblingsAt(items, k + |Items(f.head)|, f.tail)
  {
    hide TreeOk;
    ForestParts(items, k, f);
    NoItems(f);
  }

  lemma {:induction false} RestAt(items: seq<Item>, k: nat, f: Forest)
    requires SiblingsAt(items, k, f)
    ensures !Rest(f).Gap? && (Rest(f).Cons? <==> FirstIn(f, k) >= 0)
    ensures Rest(f).Nil? ==> FirstIn(f, k) == -1 && KidsIn(f, k) == []
    ensures Rest(f).Cons? ==>
      var j, h, r := FirstIn(f, k), Rest(f).head, Rest(f).tail;
      && k <= j < |items| && NodeAt(items, j, h) && SiblingsAt(items, j + |Items(h)|, r)
      && KidsIn(f, k) == [j] + KidsIn(r, j + |Items(h)|)
    decreases f
  {
    hide SiblingsAt;
    hide NodeAt;
    hide Items;
    SiblingsParts(items, k, f);
    if f.Gap? { RestAt(items, k + 1, f.rest); }
  }

  lemma {:induction false} RestFind(f: Forest, k: nat, name: seq<byte>)
    requires Rest(f).Cons? && FirstIn(f, k) >= 0
    ensures var j, h, r := FirstIn(f, k), Rest(f).head, Rest(f).tail;
            FindKid(f, k, name) == if h.name == name then j else FindKid(r, j + |Items(h)|, name)
    decreases f
  {
    hide Items;
    if f.Gap? { RestFind(f.rest, k + 1, name); }
  }

  lemma KidsClosed(items: seq<Item>, k: nat, t: Tree)
    requires NodeAt(items, k, t)
    ensures SiblingsAt(items, KidsAt(k, t), t.kids)
  {
    NodeParts(items, k, t);
  }

  /** Go through a node's children, first to last. */
  /** The found offsets are those of the items seen. */
  ghost predicate OffsetsOf(items: seq<Item>, found: seq<int>, seen: seq<nat>)
    requires AllOk(items)
  {
    |found| == |seen| && forall i :: 0 <= i < |seen| ==> seen[i] < |items| && found[i] == Off(items, seen[i])
  }

  lemma OffsetsNext(items: seq<Item>, found: seq<int>, seen: seq<nat>, node: int, j: nat)
    requires AllOk(items) && OffsetsOf(items, found, seen) && j < |items| && node == Off(items, j)
    ensures OffsetsOf(items, found + [node], seen + [j])
  {
    hide Off;
  }

  lemma OffsetsNone(items: seq<Item>)
    requires AllOk(items)
    ensures OffsetsOf(items, [], [])
  {
  }

  method Subnodes(block: seq<byte>, parent: int, ghost items: seq<Item>, ghost k: nat, ghost t: Tree)
      returns (found: seq<int>)
    requires Blob(block, items) && 0 <= parent < |block| && NodeAt(items, k, t) && parent == Off(items, k)
    ensures OffsetsOf(items, found, KidsIn(t.kids, KidsAt(k, t)))
  {
    hide OffsetsOf;
    hide Items;
    hide SiblingsAt;
    hide NodeAt;
    hide Off;
    hide Encode;
    found := [];
    OffsetsNone(items);
    KidsClosed(items, k, t);
    OffEnd(items);
    ghost var f, at: nat := t.kids, KidsAt(k, t);
    ghost var all: seq<nat>, seen: seq<nat> := KidsIn(f, at), [];
    RestAt(items, at, f);
    var node := FirstSubnode(block, parent, items, k, t);
    while node >= 0
      invariant SiblingsAt(items, at, f) && FirstIn(f, at) < |items| && node == Offset(items, FirstIn(f, at))
      invariant all == seen + KidsIn(f, at) && OffsetsOf(items, found, seen)
      decreases f
    {
      RestAt(items, at, f);
      ghost var j, h, r := FirstIn(f, at), Rest(f).head, Rest(f).tail;
      OffMonotone(items, j, |items|);
      OffsetsNext(items, found, seen, node, j);
      found := found + [node];
      seen := seen + [j];
      node := NextSubnode(block, node, items, j, h, r);
      RestSmaller(f);
      f, at := r, j + |Items(h)|;
    }
    RestAt(items, at, f);
    assert all == seen;
  }

  lemma {:induction false} RestSmaller(f: Forest)
    requires Rest(f).Cons?
    ensures Rest(f).tail < f && Rest(f).head < f
  {
    if f.Gap? { RestSmaller(f.rest); }
  }

  // -------------------------------------------------------------- names

  /** The first child with the name, or -1. */
  ghost function FindKid(f: Forest, k: nat, name: seq<byte>): int {
    match f
    case Nil => -1
    case Gap(rest) => FindKid(rest, k + 1, name)
    case Cons(head, tail) => if head.name == name then k else FindKid(tail, k + |Items(head)|, name)
  }

  /** Does the NUL-terminated string at `p` equal the name? */
  method SameString(block: seq<byte>, p: nat, name: seq<byte>, ghost s: seq<byte>) returns (same: bool)
    requires Text(name) && Text(s) && p + |s| < |block| && block[p..p + |s|] == s && block[p + |s|] == 0
    ensures same <==> s == name
  {
    var i := 0;
    while block[p + i] != 0 && i < |name| && block[p + i] == name[i]
      invariant 0 <= i <= |s| && i <= |name| && s[..i] == name[..i]
      decreases |s| - i
    {
      if i < |s| { assert block[p..p + |s|][i] == s[i]; }
      i := i + 1;
    }
    same := block[p + i] == 0 && i == |name|;
    if i < |s| { assert block[p..p + |s|][i] == s[i]; }
    assert s[..|s|] == s && name[..|name|] == name;
  }

  /** The child with the name, or -1. */
  method SubnodeOffset(block: seq<byte>, parent: int, name: seq<byte>, ghost items: seq<Item>, ghost k: nat, ghost t: Tree)
      returns (r: int)
    requires Blob(block, items) && 0 <= parent < |block| && NodeAt(items, k, t) && parent == Off(items, k) && Text(name)
    ensures FindKid(t.kids, KidsAt(k, t), name) < |items| && r == Offset(items, FindKid(t.kids, KidsAt(k, t), name))
  {
    hide Items;
    hide SiblingsAt;
    hide NodeAt;
    hide Off;
    hide Encode;
    KidsClosed(items, k, t);
    OffEnd(items);
    ghost var f, at: nat := t.kids, KidsAt(k, t);
    RestAt(items, at, f);
    var node := FirstSubnode(block, parent, items, k, t);
    while node >= 0
      invariant SiblingsAt(items, at, f) && FirstIn(f, at) < |items| && node == Offset(items, FirstIn(f, at))
      invariant FindKid(t.kids, KidsAt(k, t), name) == FindKid(f, at, name)
      decreases f
    {
      RestAt(items, at, f);
      ghost var j, h, r := FirstIn(f, at), Rest(f).head, Rest(f).tail;
      RestFind(f, at, name);
      OffMonotone(items, j, |items|);
      NodeParts(items, j, h);
      BeginAt(items, j);
      assert ItemOk(items[j]);
      var same := SameString(block, node + 4, name, h.name);
      if same { return node; }
      node := NextSubnode(block, node, items, j, h, r);
      RestSmaller(f);
      f, at := r, j + |Items(h)|;
    }
    RestAt(items, at, f);
    FindNone(f, at, name);
    return -1;
  }

  lemma {:induction false} FindNone(f: Forest, k: nat, name: seq<byte>)
    requires Rest(f).Nil?
    ensures FindKid(f, k, name) == -1
  {
    if f.Gap? { FindNone(f.rest, k + 1, name); }
  }

  // -------------------------------------------------------------- paths

  predicate HasKid(f: Forest, name: seq<byte>) {
    match f
    case Nil => false
    case Gap(rest) => HasKid(rest, name)
    case Cons(head, tail) => head.name == name || HasKid(tail, name)
  }

  /** The children of a node, in order. */
  ghost function KidList(f: Forest): seq<Tree> {
    match f
    case Nil => []
    case Gap(rest) => KidList(rest)
    case Cons(head, tail) => [head] + KidList(tail)
  }

  /** The child a name picks is the first with the name. */
  lemma {:induction false} FirstNamed(f: Forest, name: seq<byte>) returns (i: nat)
    ensures !HasKid(f, name) ==> forall j :: 0 <= j < |KidList(f)| ==> KidList(f)[j].name != name
    ensures HasKid(f, name) ==>
      && i < |KidList(f)| && KidNamed(f, name) == KidList(f)[i] && KidList(f)[i].name == name
      && forall j :: 0 <= j < i ==> KidList(f)[j].name != name
  {
    i := 0;
    match f
    case Nil =>
    case Gap(rest) => i := FirstNamed(rest, name);
    case Cons(head, tail) =>
      if head.name != name {
        var t := FirstNamed(tail, name);
        if HasKid(tail, name) {
          assert KidList(f)[t + 1].name == name;
          i := t + 1;
        } else {
          forall j | 0 <= j < |KidList(f)| ensures KidList(f)[j].name != name {
            if j > 0 { assert KidList(tail)[j - 1].name != name; }
          }
        }
      } else {
        assert KidList(f)[0].name == name;
      }
  }

  ghost function KidNamed(f: Forest, name: seq<byte>): Tree
    requires HasKid(f, name)
  {
    match f
    case Gap(rest) => KidNamed(rest, name)
    case Cons(head, tail) => if head.name == name then head else KidNamed(tail, name)
  }

  lemma {:induction false} KidFound(items: seq<Item>, k: nat, f: Forest, name: seq<byte>)
    requires SiblingsAt(items, k, f)
    ensures FindKid(f, k, name) >= 0 <==> HasKid(f, name)
    ensures HasKid(f, name) ==> NodeAt(items, FindKid(f, k, name), KidNamed(f, name)) && FindKid(f, k, name) < |items|
    decreases f
  {
    hide SiblingsAt;
    hide NodeAt;
    hide Items;
    SiblingsParts(items, k, f);
    if f.Gap? {
      KidFound(items, k + 1, f.rest, name);
    } else if f.Cons? {
      KidFound(items, k + |Items(f.head)|, f.tail, name);
    }
  }

  /** The length of the first component of a path. */
  function Component(path: seq<byte>): (n: nat)
    ensures n <= |path| && (n < |path| ==> path[n] == SLASH)
  {
    if path == [] || path[0] == SLASH then 0 else 1 + Component(path[1..])
  }

  /** The path after its first component and the slash that ends it. */
  function Further(path: seq<byte>): (rest: seq<byte>)
    requires path != []
    ensures |rest| < |path|
  {
    var n := Component(path);
    if n < |path| then path[n + 1..] else []
  }

  /** The node a path names, component by component from the node at `k`; -1 if a component is
      longer than 63 bytes or names no child. */
  ghost function Resolve(t: Tree, k: nat, path: seq<byte>): int
    decreases |path|
  {
    if path == [] then k
    else
      var name := path[..Component(path)];
      if |name| >= 64 || !HasKid(t.kids, name) || FindKid(t.kids, KidsAt(k, t), name) < 0 then -1
      else Resolve(KidNamed(t.kids, name), FindKid(t.kids, KidsAt(k, t), name), Further(path))
  }

  /** Names joined by slashes. */
  function Join(names: seq<seq<byte>>): seq<byte> {
    if names == [] then [] else if |names| == 1 then names[0] else names[0] + [SLASH] + Join(names[1..])
  }

  /** The node reached by going from child to child, each the first of its name; -1 if there is no such child or a
      name is longer than 63 bytes. */
  ghost function Descend(t: Tree, k: nat, names: seq<seq<byte>>): int
    decreases |names|
  {
    if names == [] then k
    else if |names[0]| > 63 || !HasKid(t.kids, names[0]) || FindKid(t.kids, KidsAt(k, t), names[0]) < 0 then -1
    else Descend(KidNamed(t.kids, names[0]), FindKid(t.kids, KidsAt(k, t), names[0]), names[1..])
  }

  lemma {:induction false} ComponentOf(name: seq<byte>, rest: seq<byte>)
    requires SLASH !in name && (rest == [] || rest[0] == SLASH)
    ensures Component(name + rest) == |name|
  {
    if name == [] {
      assert name + rest == rest;
    } else {
      assert (name + rest)[1..] == name[1..] + rest;
      ComponentOf(name[1..], rest);
    }
  }

  /** Resolving names joined by slashes is descending child by child. */
  lemma {:induction false} ResolveJoin(t: Tree, k: nat, names: seq<seq<byte>>)
    requires forall i :: 0 <= i < |names| ==> names[i] != [] && SLASH !in names[i]
    ensures Resolve(t, k, Join(names)) == Descend(t, k, names)
    decreases |names|
  {
    if names != [] {
      var path, name := Join(names), names[0];
      var rest := if |names| == 1 then [] else [SLASH] + Join(names[1..]);
      assert path == name + rest;
      ComponentOf(name, rest);
      assert path[..|name|] == name;
      assert Further(path) == Join(names[1..]);
      if |name| < 64 && HasKid(t.kids, name) && FindKid(t.kids, KidsAt(k, t), name) >= 0 {
        ResolveJoin(KidNamed(t.kids, name), FindKid(t.kids, KidsAt(k, t), name), names[1..]);
      }
    }
  }

  /** The first component of the rest of a path, and what follows it. */
  lemma RestOfPath(path: seq<byte>, p: nat)
    requires p < |path|
    ensures var rest := path[p..]; var end := p + Component(rest);
            rest[..Component(rest)] == path[p..end] && Further(rest) == path[if end < |path| then end + 1 else end..]
  {
    hide Component;
  }

  method ComponentEnd(path: seq<byte>, p: nat) returns (end: nat)
    requires p <= |path|
    ensures end == p + Component(path[p..])
  {
    end := p;
    while end < |path| && path[end] != SLASH
      invariant p <= end <= |path| && end - p + Component(path[end..]) == Component(path[p..])
    {
      assert path[end..][1..] == path[end + 1..];
      end := end + 1;
    }
  }

  /** The offset of the node a path names, or -1. */
  method PathOffset(block: seq<byte>, path: seq<byte>, ghost items: seq<Item>, ghost root: Tree) returns (r: int)
    requires Blob(block, items) && NodeAt(items, 0, root) && Text(path)
    ensures path == [] || path[0] != SLASH ==> r == -1
    ensures path != [] && path[0] == SLASH ==>
      Resolve(root, 0, path[1..]) < |items| && r == Offset(items, Resolve(root, 0, path[1..]))
  {
    hide Off;
    hide Encode;
    hide NodeAt;
    hide Items;
    hide Component;
    hide Further;
    hide FindKid;
    hide HasKid;
    hide KidNamed;
    hide SiblingsAt;
    if path == [] || path[0] != SLASH { return -1; }
    NodeParts(items, 0, root);
    OffStart(items);
    if |path| == 1 { return 0; }
    var offset, p := 0, 1;
    ghost var t, k: nat := root, 0;
    while p < |path|
      invariant 1 <= p <= |path| && NodeAt(items, k, t) && k < |items| && offset == Off(items, k)
      invariant Resolve(root, 0, path[1..]) == Resolve(t, k, path[p..])
    {
      var end := ComponentEnd(path, p);
      RestOfPath(path, p);
      if end - p >= 64 { return -1; }
      var component := Copy(path, p, end);
      OffEnd(items);
      OffMonotone(items, k, |items|);
      KidsClosed(items, k, t);
      KidFound(items, KidsAt(k, t), t.kids, component);
      offset := SubnodeOffset(block, offset, component, items, k, t);
      if offset < 0 { return -1; }
      p := if end < |path| then end + 1 else end;
      ghost var j := FindKid(t.kids, KidsAt(k, t), component);
      t, k := KidNamed(t.kids, component), j;
    }
    r := offset;
  }

  method Copy(path: seq<byte>, p: nat, end: nat) returns (component: seq<byte>)
    requires p <= end <= |path| && Text(path)
    ensures component == path[p..end] && Text(component)
  {
    component := [];
    var i := 0;
    while i < end - p
      invariant 0 <= i <= end - p && component == path[p..p + i]
    {
      component := component + [path[p + i]];
      i := i + 1;
    }
  }

  // -------------------------------------------------------------- properties

  /** The string in the strings block. */
  function StringAt(strings: seq<byte>, o: nat): seq<byte>
    decreases |strings| - o
  {
    if o >= |strings| || strings[o] == 0 then [] else [strings[o]] + StringAt(strings, o + 1)
  }

  predicate Terminated(strings: seq<byte>, o: nat) {
    exists e :: o <= e < |strings| && strings[e] == 0
  }

  lemma {:induction false} StringBytes(strings: seq<byte>, o: nat, e: nat)
    requires o <= e < |strings| && strings[e] == 0
    ensures var s := StringAt(strings, o); Text(s) && o + |s| <= e && strings[o..o + |s|] == s && strings[o + |s|] == 0
    decreases e - o
  {
    if strings[o] != 0 {
      StringBytes(strings, o + 1, e);
      var s, r := StringAt(strings, o), StringAt(strings, o + 1);
      assert strings[o..o + |s|] == [strings[o]] + strings[o + 1..o + 1 + |r|];
    }
  }

  /** The first property with the name, from `i` on, or -1. */
  function FindProp(props: seq<Item>, i: nat, strings: seq<byte>, name: seq<byte>): (r: int)
    ensures r < |props| && (r >= 0 ==> i <= r && props[r].Prop? && StringAt(strings, props[r].nameoff) == name)
    ensures forall j :: i <= j < |props| && (r < 0 || j < r) && props[j].Prop? ==> StringAt(strings, props[j].nameoff) != name
    decreases |props| - i
  {
    if i >= |props| then -1
    else if props[i].Prop? && StringAt(strings, props[i].nameoff) == name then i
    else FindProp(props, i + 1, strings, name)
  }

  /** Every property's name is a string of the strings block. */
  ghost predicate NamesIn(items: seq<Item>, strings: seq<byte>) {
    forall i :: 0 <= i < |items| && items[i].Prop? ==> Terminated(strings, items[i].nameoff)
  }

  /** A node's property: where its value starts, and its length. */
  method GetProp(block: seq<byte>, strings: seq<byte>, offset: int, name: seq<byte>,
                 ghost items: seq<Item>, ghost k: nat, ghost t: Tree) returns (found: bool, value: nat, len: nat)
    requires Blob(block, items) && NamesIn(items, strings) && Text(name)
    requires 0 <= offset < |block| ==> NodeAt(items, k, t) && offset == Off(items, k)
    ensures !(0 <= offset < |block|) ==> !found
    ensures 0 <= offset < |block| ==> (found <==> FindProp(t.props, 0, strings, name) >= 0)
    ensures 0 <= offset < |block| && found ==>
      var data := t.props[FindProp(t.props, 0, strings, name)].data;
      len == |data| && value + len <= |block| && block[value..value + len] == data
    ensures !found ==> len == 0
  {
    hide Items;
    hide NodeAt;
    hide StringAt;
    hide Depth;
    hide Off;
    hide Encode;
    found, value, len := false, 0, 0;
    if offset < 0 || offset >= |block| { return; }
    NodeParts(items, k, t);
    OffEnd(items);
    OffMonotone(items, k, |items|);
    var token, p := Step(block, offset, items, k);
    var depth := 0;
    ghost var i: nat, e: nat, b: nat := k + 1, k + |Items(t)|, KidsAt(k, t);
    NoDepth(items, b);
    OffMonotone(items, i, |items|);
    while p < |block|
      invariant k < i < e <= |items| && p == Off(items, i) < |block|
      invariant i <= b ==> depth == 0 && FindProp(t.props, 0, strings, name) == FindProp(t.props, i - k - 1, strings, name)
      invariant i > b ==> depth == Depth(items[b..i]) && FindProp(t.props, 0, strings, name) == -1
      invariant !found && len == 0
      decreases |items| - i
    {
      var q;
      token, q := Step(block, p, items, i);
      PropOrKid(items, k, t, i);
      if token == 1 {
        depth := depth + 1;
      } else if token == 2 {
        if depth == 0 { return; }
        depth := depth - 1;
      } else if token == 3 {
        if depth == 0 {
          PropAt(items, i);
          var nameoff := Word(block, p + 8);
          ghost var z :| nameoff <= z < |strings| && strings[z] == 0;
          StringBytes(strings, nameoff, z);
          var same := SameString(strings, nameoff, name, StringAt(strings, nameoff));
          if same { return true, p + 12, Word(block, p + 4); }
        }
      } else if token == 9 {
        return;
      }
      i := i + 1;
      p := q;
      OffMonotone(items, i, |items|);
    }
  }

  /** Inside a node: its own properties come first; after them every property and every end, save the
      node's own end, is at a positive depth. */
  lemma PropOrKid(items: seq<Item>, k: nat, t: Tree, i: nat)
    requires NodeAt(items, k, t) && k < i < k + |Items(t)|
    ensures var b := KidsAt(k, t);
            && (i < b ==> items[i] == t.props[i - k - 1] && (items[i].Prop? || items[i].Nop?))
            && (i >= b ==> Depth(items[b..i + 1]) == Depth(items[b..i]) + match items[i] case Begin(_) => 1 case End => -1 case _ => 0)
            && (b <= i < k + |Items(t)| - 1 && (items[i].Prop? || items[i].End?) ==> Depth(items[b..i]) >= 1)
            && (i == k + |Items(t)| - 1 ==> items[i] == End && Depth(items[b..i]) == 0)
            && items[i] != Finish
  {
    hide Items;
    hide NodeAt;
    hide Depth;
    hide ForestItems;
    hide At;
    NodeParts(items, k, t);
    var b, f := KidsAt(k, t), ForestItems(t.kids);
    if i >= b {
      DepthNext(items, b, i);
      AtPrefix(items, b, f, i - b);
      if i < b + |f| {
        ForestItem(t.kids, i - b);
        AtItem(items, b, f, i - b);
      } else {
        ForestDepth(t.kids, |f|);
      }
    }
  }

  // -------------------------------------------------------------- pre-order

  /** All nodes, parents before children, in order. */
  ghost function PreOrder(t: Tree, k: nat): seq<nat>
    decreases t, 1
  {
    [k] + ForestPreOrder(t.kids, KidsAt(k, t))
  }

  ghost function ForestPreOrder(f: Forest, k: nat): seq<nat>
    decreases f, 0
  {
    match f
    case Nil => []
    case Gap(rest) => ForestPreOrder(rest, k + 1)
    case Cons(head, tail) => PreOrder(head, k) + ForestPreOrder(tail, k + |Items(head)|)
  }

  /** The items that begin a node, from `i` up to `j`. */
  ghost function Begins(items: seq<Item>, i: nat, j: nat): seq<nat>
    requires i <= j <= |items|
    decreases j
  {
    if i == j then [] else Begins(items, i, j - 1) + if items[j - 1].Begin? then [j - 1] else []
  }

  lemma {:induction false} BeginsSplit(items: seq<Item>, i: nat, m: nat, j: nat)
    requires i <= m <= j <= |items|
    ensures Begins(items, i, j) == Begins(items, i, m) + Begins(items, m, j)
    decreases j
  {
    if m < j { BeginsSplit(items, i, m, j - 1); }
  }

  lemma {:induction false} BeginsNone(items: seq<Item>, i: nat, j: nat)
    requires i <= j <= |items| && forall x :: i <= x < j ==> !items[x].Begin?
    ensures Begins(items, i, j) == []
    decreases j
  {
    if i < j { BeginsNone(items, i, j - 1); }
  }

  lemma BeginsOne(items: seq<Item>, k: nat)
    requires k < |items| && items[k].Begin?
    ensures Begins(items, k, k + 1) == [k]
  {
    assert Begins(items, k, k) == [];
  }

  /** A tree's nodes in pre-order are the begin tokens of its layout, in order. */
  lemma {:induction false} PreOrderBegins(items: seq<Item>, k: nat, t: Tree)
    requires NodeAt(items, k, t)
    ensures PreOrder(t, k) == Begins(items, k, k + |Items(t)|)
    decreases t, 1
  {
    hide NodeAt;
    hide Items;
    hide Begins;
    NodeParts(items, k, t);
    var b, e := KidsAt(k, t), k + |Items(t)|;
    BeginsSplit(items, k, k + 1, e);
    BeginsSplit(items, k + 1, b, e);
    BeginsSplit(items, b, e - 1, e);
    BeginsNone(items, k + 1, b);
    BeginsNone(items, e - 1, e);
    BeginsForest(items, b, t.kids);
    BeginsOne(items, k);
  }

  lemma {:induction false} BeginsForest(items: seq<Item>, k: nat, f: Forest)
    requires ForestOk(f) && At(items, k, ForestItems(f))
    ensures ForestPreOrder(f, k) == Begins(items, k, k + |ForestItems(f)|)
    decreases f, 0
  {
    hide NodeAt;
    hide Items;
    hide Begins;
    hide TreeOk;
    ForestParts(items, k, f);
    var e := k + |ForestItems(f)|;
    if f.Gap? {
      BeginsSplit(items, k, k + 1, e);
      BeginsNone(items, k, k + 1);
      BeginsForest(items, k + 1, f.rest);
    } else if f.Cons? {
      BeginsSplit(items, k, k + |Items(f.head)|, e);
      PreOrderBegins(items, k, f.head);
      BeginsForest(items, k + |Items(f.head)|, f.tail);
    } else {
      BeginsNone(items, k, k);
    }
  }

  /** The next node in the block after the one at `offset`, or the first if `offset` is negative; -1 at the end.
      The depth is relative to the children of the node at `offset`; `before` is what the caller's variable held.
      `i` is where the search starts and `n` is the end of the root's items, where the final token stands. */
  method NextNode(block: seq<byte>, offset: int, before: int, ghost items: seq<Item>, ghost i: nat, ghost n: nat)
      returns (r: int, depth: int, ghost j: nat)
    requires Blob(block, items) && i <= n < |items| && items[n] == Finish && forall x :: 0 <= x < n ==> items[x] != Finish
    requires if offset < 0 then i == 0 else 0 < i && items[i - 1].Begin? && offset == Off(items, i - 1)
    ensures r >= 0 ==> i <= j < n && items[j].Begin? && r == Off(items, j) && Begins(items, i, j) == [] && depth == Depth(items[i..j])
    ensures r < 0 ==> r == -1 && Begins(items, i, n) == []
    ensures r < 0 ==> depth == if Depth(items[i..n]) < 0 then Depth(items[i..n]) else before
  {
    hide Off;
    hide Encode;
    hide Depth;
    OffEnd(items);
    NoDepth(items, i);
    var p := 0;
    if offset >= 0 {
      var token;
      token, p := Step(block, offset, items, i - 1);
    } else {
      OffStart(items);
    }
    j := i;
    depth := before;
    var current := 0;
    OffMonotone(items, j, |items|);
    while p < |block|
      invariant i <= j <= n && p == Off(items, j) < |block| && Begins(items, i, j) == []
      invariant current == Depth(items[i..j]) <= 0 && depth == if current < 0 then current else before
      decreases |items| - j
    {
      var token, q := Step(block, p, items, j);
      if token == 1 { return p, current, j; }
      if token == 9 { return -1, depth, j; }
      DepthNext(items, i, j);
      if token == 2 {
        current := current - 1;
        if current < 0 { depth := current; }
      }
      j := j + 1;
      p := q;
      OffMonotone(items, j, |items|);
    }
    return -1, depth, j;
  }

  lemma OffStart(items: seq<Item>)
    requires AllOk(items)
    ensures Off(items, 0) == 0
  {
  }

  lemma NoFinish(items: seq<Item>, t: Tree)
    requires NodeAt(items, 0, t)
    ensures forall x :: 0 <= x < |Items(t)| ==> items[x] != Finish
  {
    var n := |Items(t)|;
    forall x | 0 <= x < n ensures items[x] != Finish {
      TreeItem(t, x);
      assert items[x] == items[0..n][x];
    }
  }

  /** Walking from node to node visits the tree in pre-order. */
  method AllNodes(block: seq<byte>, ghost items: seq<Item>, ghost t: Tree) returns (found: seq<int>)
    requires Blob(block, items) && NodeAt(items, 0, t) && |Items(t)| < |items| && items[|Items(t)|] == Finish
    ensures OffsetsOf(items, found, PreOrder(t, 0))
  {
    hide OffsetsOf;
    hide Off;
    hide Encode;
    hide NodeAt;
    hide Items;
    hide PreOrder;
    hide Begins;
    ghost var n, all := |Items(t)|, PreOrder(t, 0);
    PreOrderBegins(items, 0, t);
    NoFinish(items, t);
    found := [];
    OffsetsNone(items);
    var node := -1;
    ghost var i: nat, seen: seq<nat> := 0, [];
    while true
      invariant i <= n && all == seen + Begins(items, i, n) && OffsetsOf(items, found, seen)
      invariant if node < 0 then i == 0 else 0 < i && items[i - 1].Begin? && node == Off(items, i - 1)
      decreases n - i
    {
      ghost var j;
      var depth;
      node, depth, j := NextNode(block, node, 0, items, i, n);
      if node < 0 { break; }
      BeginsSplit(items, i, j, n);
      BeginsSplit(items, j, j + 1, n);
      BeginsOne(items, j);
      OffsetsNext(items, found, seen, node, j);
      found := found + [node];
      seen := seen + [j];
      i := j + 1;
    }
    assert all == seen;
  }

  // -------------------------------------------------------------- parents

  /** The parent of a node: the walk stops short of the node's own token, so none is ever found. */
  method ParentOffset(block: seq<byte>, offset: int, ghost items: seq<Item>, ghost k: nat) returns (r: int)
    requires Blob(block, items) && k < |items| && (offset > 0 ==> offset == Off(items, k))
    ensures r == -1
  {
    hide Off;
    hide Encode;
    if offset <= 0 { return -1; }
    OffStart(items);
    var p, parent, depth := 0, 0, 0;
    ghost var i := 0;
    while p < |block| && p < offset
      invariant 0 <= i <= k && p == Off(items, i)
      decreases k - i
    {
      var token, q := Step(block, p, items, i);
      if token == 1 {
        if p == offset { return parent; }
        if depth == 0 { parent := p; }
        depth := depth + 1;
      } else if token == 2 {
        depth := depth - 1;
      } else if token == 9 {
        return -1;
      }
      p := q;
      i := i + 1;
    }
    return -1;
  }
}
