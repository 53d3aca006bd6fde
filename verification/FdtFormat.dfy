/** The structure block of a flattened device tree (section 5.4 of the Devicetree Specification).

    A tree is laid out as items, and the items as bytes: a big-endian token, then a
    NUL-terminated name or a property's length, name offset and value, padded to four bytes.
 */
module FdtFormat {

  type byte = x: int | 0 <= x < 256

  /** A node name: a string without NUL. */
  predicate Text(s: seq<byte>) {
    forall i :: 0 <= i < |s| ==> s[i] != 0
  }

  datatype Item = Begin(name: seq<byte>) | End | Prop(nameoff: nat, data: seq<byte>) | Nop | Finish

  function Token(it: Item): nat {
    match it
    case Begin(_) => 1
    case End => 2
    case Prop(_, _) => 3
    case Nop => 4
    case Finish => 9
  }

  predicate ItemOk(it: Item) {
    && (it.Begin? ==> Text(it.name))
    && (it.Prop? ==> it.nameoff < 0x1_0000_0000 && |it.data| < 0x1_0000_0000)
  }

  // -------------------------------------------------------------- bytes

  function Be32(w: nat): (r: seq<byte>)
    requires w < 0x1_0000_0000
    ensures |r| == 4
  {
    [w / 256 / 256 / 256, w / 256 / 256 % 256, w / 256 % 256, w % 256]
  }

  function Word(b: seq<byte>, o: nat): nat
    requires o + 4 <= |b|
  {
    (((b[o] as int) * 256 + b[o + 1]) * 256 + b[o + 2]) * 256 + b[o + 3]
  }

  lemma WordOfBe32(b: seq<byte>, o: nat, w: nat)
    requires w < 0x1_0000_0000 && o + 4 <= |b| && b[o..o + 4] == Be32(w)
    ensures Word(b, o) == w
  {
    var c := b[o..o + 4];
    assert b[o] == c[0] && b[o + 1] == c[1] && b[o + 2] == c[2] && b[o + 3] == c[3];
    var x := w / 256;
    var y := x / 256;
    assert w == 256 * x + w % 256 && x == 256 * y + x % 256 && y == 256 * (y / 256) + y % 256;
  }

  function Align(n: nat): (r: nat)
    ensures n <= r < n + 4 && r % 4 == 0
  {
    (n + 3) / 4 * 4
  }

  function Padded(s: seq<byte>, n: nat): (r: seq<byte>)
    requires |s| <= n
    ensures |r| == n && r[..|s|] == s
  {
    s + seq(n - |s|, _ => 0)
  }

  /** Padded to whole words. */
  function Filled(s: seq<byte>): (r: seq<byte>)
    ensures |r| == Align(|s|) && |r| % 4 == 0 && r[..|s|] == s
  {
    Padded(s, Align(|s|))
  }

  function Bytes(it: Item): (b: seq<byte>)
    requires ItemOk(it)
    ensures |b| >= 4
  {
    match it
    case Begin(name) => Be32(1) + Filled(name + [0])
    case Prop(nameoff, data) => PropHead(nameoff, data) + Filled(data)
    case _ => Be32(Token(it))
  }

  /** What precedes the value of a property. */
  function PropHead(nameoff: nat, data: seq<byte>): (b: seq<byte>)
    requires nameoff < 0x1_0000_0000 && |data| < 0x1_0000_0000
    ensures |b| == 12
  {
    Be32(3) + Be32(|data|) + Be32(nameoff)
  }

  ghost predicate AllOk(items: seq<Item>) {
    forall i :: 0 <= i < |items| ==> ItemOk(items[i])
  }

  function Encode(items: seq<Item>): seq<byte>
    requires AllOk(items)
  {
    if items == [] then [] else Encode(items[..|items| - 1]) + Bytes(items[|items| - 1])
  }

  /** Where an item starts in the block. */
  function Off(items: seq<Item>, k: nat): nat
    requires AllOk(items) && k <= |items|
  {
    |Encode(items[..k])|
  }

  lemma OffStep(items: seq<Item>, k: nat)
    requires AllOk(items) && k < |items|
    ensures Off(items, k + 1) == Off(items, k) + |Bytes(items[k])|
  {
    assert items[..k + 1][..k] == items[..k];
  }

  lemma WholeWords(it: Item)
    requires ItemOk(it)
    ensures |Bytes(it)| % 4 == 0
  {
    hide Be32;
    hide PropHead;
    hide Filled;
    if it.Begin? {
      AddFour(Filled(it.name + [0]), Be32(1));
    } else if it.Prop? {
      AddFour(Filled(it.data), PropHead(it.nameoff, it.data));
    }
  }

  lemma AddFour(a: seq<byte>, b: seq<byte>)
    requires |a| % 4 == 0 && |b| % 4 == 0
    ensures |b + a| % 4 == 0
  {
  }

  /** Items start at word boundaries. */
  lemma {:induction false} OffWhole(items: seq<Item>, k: nat)
    requires AllOk(items) && k <= |items|
    ensures Off(items, k) % 4 == 0
    decreases k
  {
    hide Bytes;
    if k > 0 {
      OffWhole(items, k - 1);
      OffStep(items, k - 1);
      WholeWords(items[k - 1]);
    }
  }

  /** The bytes of an item are where it starts, at a word boundary. */
  lemma {:induction false} BytesAt(items: seq<Item>, k: nat)
    requires AllOk(items) && k < |items|
    ensures Off(items, k) <= Off(items, k + 1) <= |Encode(items)|
    ensures Encode(items)[Off(items, k)..Off(items, k + 1)] == Bytes(items[k]) && Off(items, k) % 4 == 0
    decreases |items|
  {
    hide Bytes;
    OffWhole(items, k);
    var n := |items| - 1;
    var init := items[..n];
    OffStep(items, k);
    if k < n {
      BytesAt(init, k);
      assert init[..k] == items[..k] && init[..k + 1] == items[..k + 1];
      PrefixSlice(Encode(init), Bytes(items[n]), Off(items, k), Off(items, k + 1));
    } else {
      assert items[..k] == init && items[..k + 1] == items;
    }
  }

  lemma PrefixSlice(a: seq<byte>, b: seq<byte>, i: nat, j: nat)
    requires i <= j <= |a|
    ensures (a + b)[i..j] == a[i..j]
  {
  }

  lemma SubSlice(b: seq<byte>, o: nat, e: nat, i: nat, j: nat)
    requires o <= e <= |b| && i <= j <= e - o
    ensures b[o + i..o + j] == b[o..e][i..j]
  {
    forall k | 0 <= k < j - i ensures b[o + i..o + j][k] == b[o..e][i..j][k] {}
  }

  lemma {:induction false} OffMonotone(items: seq<Item>, j: nat, k: nat)
    requires AllOk(items) && j < k <= |items|
    ensures Off(items, j) < Off(items, k)
    decreases k
  {
    hide Off;
    hide Bytes;
    OffStep(items, k - 1);
    if j < k - 1 { OffMonotone(items, j, k - 1); }
  }

  lemma OffEnd(items: seq<Item>)
    requires AllOk(items)
    ensures Off(items, |items|) == |Encode(items)|
  {
    assert items[..|items|] == items;
  }

  lemma BeginBytes(it: Item)
    requires ItemOk(it) && it.Begin?
    ensures var c, n := Bytes(it), |it.name|; |c| == 4 + Align(n + 1) && c[4..4 + n] == it.name && c[4 + n] == 0
  {
    var c, n := Bytes(it), |it.name|;
    var p := Filled(it.name + [0]);
    assert p[..n + 1] == it.name + [0];
    assert c[4..4 + n] == p[..n] == p[..n + 1][..n];
    assert c[4 + n] == p[n] == p[..n + 1][n];
  }

  lemma PropBytes(it: Item)
    requires ItemOk(it) && it.Prop?
    ensures var c, n := Bytes(it), |it.data|;
            |c| == 12 + Align(n) && c[4..8] == Be32(n) && c[8..12] == Be32(it.nameoff) && c[12..12 + n] == it.data
  {
    hide Be32;
    var c, n := Bytes(it), |it.data|;
    var p := Filled(it.data);
    var x, y, z := Be32(3), Be32(n), Be32(it.nameoff);
    assert c == x + y + z + p;
    assert c[4..8] == y && c[8..12] == z && c[12..12 + n] == p[..n];
  }

  lemma TokenBytes(it: Item)
    requires ItemOk(it)
    ensures Bytes(it)[..4] == Be32(Token(it))
    ensures !it.Begin? && !it.Prop? ==> |Bytes(it)| == 4
  {
    hide Be32;
    var t := Be32(Token(it));
    if it.Begin? {
      assert Bytes(it) == t + Filled(it.name + [0]);
    } else if it.Prop? {
      assert Bytes(it) == t + (Be32(|it.data|) + Be32(it.nameoff) + Filled(it.data));
    } else {
      assert Bytes(it) == t;
    }
  }

  /** What a reader finds at the start of a node: the token, the name and its NUL. */
  lemma BeginAt(items: seq<Item>, k: nat)
    requires AllOk(items) && k < |items| && items[k].Begin?
    ensures var b, o, name := Encode(items), Off(items, k), items[k].name;
            && Off(items, k + 1) == o + 4 + Align(|name| + 1) <= |b|
            && b[o + 4..o + 4 + |name|] == name && b[o + 4 + |name|] == 0
  {
    hide Bytes;
    hide Encode;
    var b, o, e, n := Encode(items), Off(items, k), Off(items, k + 1), |items[k].name|;
    BytesAt(items, k);
    OffStep(items, k);
    BeginBytes(items[k]);
    SubSlice(b, o, e, 4, 4 + n);
    assert b[o + 4 + n] == b[o..e][4 + n];
  }

  lemma PropAt(items: seq<Item>, k: nat)
    requires AllOk(items) && k < |items| && items[k].Prop?
    ensures var b, o := Encode(items), Off(items, k);
            && Off(items, k + 1) == o + 12 + Align(|items[k].data|) <= |b|
            && Word(b, o + 4) == |items[k].data| && Word(b, o + 8) == items[k].nameoff
            && b[o + 12..o + 12 + |items[k].data|] == items[k].data
  {
    hide Bytes;
    hide Encode;
    hide Be32;
    hide Word;
    var b, o, e, n := Encode(items), Off(items, k), Off(items, k + 1), |items[k].data|;
    BytesAt(items, k);
    OffStep(items, k);
    PropBytes(items[k]);
    SubSlice(b, o, e, 4, 8);
    SubSlice(b, o, e, 8, 12);
    SubSlice(b, o, e, 12, 12 + n);
    WordOfBe32(b, o + 4, n);
    WordOfBe32(b, o + 8, items[k].nameoff);
  }

  lemma TokenAt(items: seq<Item>, k: nat)
    requires AllOk(items) && k < |items|
    ensures Off(items, k) + 4 <= Off(items, k + 1) <= |Encode(items)| && Word(Encode(items), Off(items, k)) == Token(items[k])
    ensures !items[k].Begin? && !items[k].Prop? ==> Off(items, k + 1) == Off(items, k) + 4
  {
    hide Encode;
    hide Word;
    hide Bytes;
    hide Be32;
    var b, o, e := Encode(items), Off(items, k), Off(items, k + 1);
    BytesAt(items, k);
    OffStep(items, k);
    TokenBytes(items[k]);
    SubSlice(b, o, e, 0, 4);
    WordOfBe32(b, o, Token(items[k]));
  }

  // -------------------------------------------------------------- trees

  /** A node: its name, its properties (with no-ops among them), and its children. */
  datatype Tree = Node(name: seq<byte>, props: seq<Item>, kids: Forest)

  /** Children in order, with no-ops between them. */
  datatype Forest = Nil | Gap(rest: Forest) | Cons(head: Tree, tail: Forest)

  function Items(t: Tree): seq<Item> {
    [Begin(t.name)] + t.props + ForestItems(t.kids) + [End]
  }

  function ForestItems(f: Forest): seq<Item> {
    match f
    case Nil => []
    case Gap(rest) => [Nop] + ForestItems(rest)
    case Cons(head, tail) => Items(head) + ForestItems(tail)
  }

  ghost predicate TreeOk(t: Tree) {
    && Text(t.name) && (forall i :: 0 <= i < |t.props| ==> (t.props[i].Prop? || t.props[i].Nop?) && ItemOk(t.props[i]))
    && ForestOk(t.kids)
  }

  ghost predicate ForestOk(f: Forest) {
    match f
    case Nil => true
    case Gap(rest) => ForestOk(rest)
    case Cons(head, tail) => TreeOk(head) && ForestOk(tail)
  }

  /** `part` is laid out at index `k`. */
  predicate At(items: seq<Item>, k: nat, part: seq<Item>) {
    k + |part| <= |items| && items[k..k + |part|] == part
  }

  /** Begin tokens less end tokens. */
  function Depth(items: seq<Item>): int {
    if items == [] then 0
    else Depth(items[..|items| - 1]) +
         match items[|items| - 1] case Begin(_) => 1 case End => -1 case _ => 0
  }

  lemma {:induction false} DepthConcat(a: seq<Item>, b: seq<Item>)
    ensures Depth(a + b) == Depth(a) + Depth(b)
    decreases |b|
  {
    if b == [] {
      assert a + b == a;
    } else {
      assert (a + b)[..|a + b| - 1] == a + b[..|b| - 1];
      DepthConcat(a, b[..|b| - 1]);
    }
  }

  lemma {:induction false} DepthFlat(s: seq<Item>)
    requires forall i :: 0 <= i < |s| ==> !s[i].Begin? && !s[i].End?
    ensures Depth(s) == 0
  {
    if s != [] { DepthFlat(s[..|s| - 1]); }
  }

  /** A node's items balance, and not before the last one. */
  lemma {:induction false} TreeDepth(t: Tree, i: nat)
    requires TreeOk(t) && 0 < i <= |Items(t)|
    ensures Depth(Items(t)[..i]) >= 0 && (Depth(Items(t)[..i]) == 0 <==> i == |Items(t)|)
    decreases t, 1
  {
    var head, body, p := [Begin(t.name)], ForestItems(t.kids), |t.props|;
    var all := Items(t);
    DepthConcat([], head);
    assert [] + head == head && Depth(head) == 1 by { assert head[..0] == []; }
    if i <= 1 + p {
      var part := t.props[..i - 1];
      assert all[..i] == head + part;
      DepthFlat(part);
      DepthConcat(head, part);
    } else {
      var j := if i == |all| then |body| else i - 1 - p;
      DepthFlat(t.props);
      DepthConcat(head, t.props);
      ForestDepth(t.kids, j);
      DepthConcat(head + t.props, body[..j]);
      if i == |all| {
        assert body[..j] == body && all[..i] == (head + t.props + body) + [End];
        DepthConcat(head + t.props + body, [End]);
        assert Depth([End]) == -1 by { assert [End][..0] == []; }
      } else {
        assert all[..i] == head + t.props + body[..j];
      }
    }
  }

  lemma {:induction false} ForestDepth(f: Forest, i: nat)
    requires ForestOk(f) && i <= |ForestItems(f)|
    ensures Depth(ForestItems(f)[..i]) >= 0
    ensures i == |ForestItems(f)| ==> Depth(ForestItems(f)[..i]) == 0
    decreases f, 0
  {
    var all := ForestItems(f);
    if i == 0 {
      assert all[..0] == [];
    } else {
      match f
      case Nil =>
      case Gap(rest) =>
        var part := ForestItems(rest)[..i - 1];
        assert all[..i] == [Nop] + part;
        ForestDepth(rest, i - 1);
        DepthFlat([Nop]);
        DepthConcat([Nop], part);
      case Cons(head, tail) =>
        var first := Items(head);
        if i <= |first| {
          assert all[..i] == first[..i];
          TreeDepth(head, i);
        } else {
          var part := ForestItems(tail)[..i - |first|];
          assert all[..i] == first + part && first[..|first|] == first;
          TreeDepth(head, |first|);
          ForestDepth(tail, i - |first|);
          DepthConcat(first, part);
        }
    }
  }

  /** The block's final token is in no node, and a property among a node's children is inside one of them. */
  lemma {:induction false} TreeItem(t: Tree, i: nat)
    requires TreeOk(t) && i < |Items(t)|
    ensures Items(t)[i] != Finish
    decreases t, 1
  {
    var p := 1 + |t.props|;
    if p <= i < |Items(t)| - 1 {
      ForestItem(t.kids, i - p);
      assert Items(t)[i] == ForestItems(t.kids)[i - p];
    }
  }

  lemma {:induction false} ForestItem(f: Forest, i: nat)
    requires ForestOk(f) && i < |ForestItems(f)|
    ensures ForestItems(f)[i] != Finish
    ensures ForestItems(f)[i].Prop? || ForestItems(f)[i].End? ==> Depth(ForestItems(f)[..i]) >= 1
    decreases f, 0
  {
    var all := ForestItems(f);
    match f
    case Nil =>
    case Gap(rest) =>
      if i > 0 {
        ForestItem(rest, i - 1);
        assert all[..i] == [Nop] + ForestItems(rest)[..i - 1] && all[i] == ForestItems(rest)[i - 1];
        DepthFlat([Nop]);
        DepthConcat([Nop], ForestItems(rest)[..i - 1]);
      }
    case Cons(head, tail) =>
      var first := Items(head);
      if i < |first| {
        TreeItem(head, i);
        assert all[..i] == first[..i] && all[i] == first[i];
        if i > 0 { TreeDepth(head, i); }
      } else {
        var j := i - |first|;
        ForestItem(tail, j);
        assert all[..i] == first + ForestItems(tail)[..j] && all[i] == ForestItems(tail)[j];
        TreeDepth(head, |first|);
        assert first[..|first|] == first;
        DepthConcat(first, ForestItems(tail)[..j]);
      }
  }
}
