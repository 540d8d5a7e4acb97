/** Karmarkar–Karp largest differencing for two-way number partitioning.
    Every item is a leaf node of weight w; the two heaviest nodes are
    repeatedly combined, the lighter becoming a child of the heavier, whose
    weight drops to the difference. Two-colouring the final tree by depth
    parity reads off two sides whose weight sums differ by the root's weight. */
module NumberPartition {
  import opened SeqFacts

  /** An input item: an integer, or a group of elements weighted by its size. */
  datatype Item = Num(n: int) | Group(elems: seq<int>)

  /** An integer item weighs its value, any other item its length. */
  function Weight(item: Item): int
  {
    match item
    case Num(n) => n
    case Group(s) => |s|
  }

  /** A node of the differencing tree. As in the heap of the implementation
      the priority is the negated weight, so the lightest priority is the
      heaviest node. */
  datatype Node = Node(priority: int, value: Item, children: seq<Node>)

  /** The node an item is pushed as. */
  function LeafOf(item: Item): (n: Node)
    ensures n.priority == -Weight(item) && n.value == item && n.children == []
  {
    Node(-Weight(item), item, [])
  }

  function SumWeights(items: seq<Item>): int
  {
    if items == [] then 0 else SumWeights(items[..|items| - 1]) + Weight(items[|items| - 1])
  }

  predicate NonNegative(items: seq<Item>)
  {
    forall i :: 0 <= i < |items| ==> Weight(items[i]) >= 0
  }

  /** The largest weight among the items (0 for none). */
  function Heaviest(items: seq<Item>): (m: int)
    ensures forall i :: 0 <= i < |items| ==> Weight(items[i]) <= m
  {
    if items == [] then 0
    else
      var m' := Heaviest(items[..|items| - 1]);
      var w := Weight(items[|items| - 1]);
      if w > m' then w else m'
  }

  // ---------------------------------------------------------------------
  // Tree measures
  // ---------------------------------------------------------------------

  /** The value of `n` minus the signed weights of its children: the weight
      a node ought to carry after the differencing steps that built it. */
  function Signed(n: Node): int
    decreases n, |n.children| + 1
  {
    Weight(n.value) - ChildSigned(n, |n.children|)
  }

  /** Sum of `Signed` over the first k children of `n`. */
  function ChildSigned(n: Node, k: nat): int
    requires k <= |n.children|
    decreases n, k
  {
    if k == 0 then 0 else ChildSigned(n, k - 1) + Signed(n.children[k - 1])
  }

  /** The values at even (p == 0) or odd (p == 1) depth below `n`. */
  function Layer(n: Node, p: nat): multiset<Item>
    requires p < 2
    decreases n, |n.children| + 1
  {
    (if p == 0 then multiset{n.value} else multiset{}) + ChildLayer(n, |n.children|, 1 - p)
  }

  /** The union of `Layer(c, p)` over the first k children c of `n`. */
  function ChildLayer(n: Node, k: nat, p: nat): multiset<Item>
    requires k <= |n.children| && p < 2
    decreases n, k
  {
    if k == 0 then multiset{} else ChildLayer(n, k - 1, p) + Layer(n.children[k - 1], p)
  }

  /** All values in the tree below `n`. */
  function Content(n: Node): multiset<Item>
  {
    Layer(n, 0) + Layer(n, 1)
  }

  function HeapContent(heap: seq<Node>): multiset<Item>
  {
    if heap == [] then multiset{} else HeapContent(heap[..|heap| - 1]) + Content(heap[|heap| - 1])
  }

  /** The node's priority is the negated signed weight of its tree. */
  predicate Balanced(n: Node)
  {
    n.priority == -Signed(n)
  }

  /** `y` becomes the last child of `x`, and `x` loses `y`'s weight. */
  function Combine(x: Node, y: Node): Node
  {
    Node(x.priority - y.priority, x.value, x.children + [y])
  }

  // ---------------------------------------------------------------------
  // Lemmas about the measures
  // ---------------------------------------------------------------------

  /** Two nodes agreeing on their first k children agree on the measures of those children. */
  lemma {:induction false} SamePrefix(n: Node, n': Node, k: nat)
    requires k <= |n.children| && k <= |n'.children|
    requires n.children[..k] == n'.children[..k]
    ensures ChildSigned(n, k) == ChildSigned(n', k)
    ensures forall p :: 0 <= p < 2 ==> ChildLayer(n, k, p) == ChildLayer(n', k, p)
  {
    if k > 0 {
      assert n.children[..k - 1] == n.children[..k][..k - 1];
      assert n'.children[..k - 1] == n'.children[..k][..k - 1];
      assert n.children[k - 1] == n.children[..k][k - 1];
      assert n'.children[k - 1] == n'.children[..k][k - 1];
      SamePrefix(n, n', k - 1);
    }
  }

  /** Combining subtracts the signed weights and swaps the layers of the new child. */
  lemma CombineMeasures(x: Node, y: Node)
    ensures Signed(Combine(x, y)) == Signed(x) - Signed(y)
    ensures Layer(Combine(x, y), 0) == Layer(x, 0) + Layer(y, 1)
    ensures Layer(Combine(x, y), 1) == Layer(x, 1) + Layer(y, 0)
    ensures Content(Combine(x, y)) == Content(x) + Content(y)
  {
    var z := Combine(x, y);
    var k := |x.children|;
    assert z.children[..k] == x.children[..k];
    SamePrefix(x, z, k);
    assert z.children[k] == y;
  }

  /** A leaf node is balanced and holds exactly its item. */
  lemma LeafMeasures(item: Item)
    ensures Balanced(LeafOf(item))
    ensures Layer(LeafOf(item), 0) == multiset{item} && Layer(LeafOf(item), 1) == multiset{}
  {
  }

  lemma {:induction false} HeapContentAppend(a: seq<Node>, b: seq<Node>)
    ensures HeapContent(a + b) == HeapContent(a) + HeapContent(b)
    decreases |b|
  {
    if b != [] {
      var b' := b[..|b| - 1];
      AppendLast(a, b);
      HeapContentAppend(a, b');
    } else {
      AppendNil(a);
    }
  }

  /** Some node of a non-empty heap has the least priority. */
  lemma {:induction false} LightestExists(heap: seq<Node>)
    requires |heap| > 0
    ensures exists i :: 0 <= i < |heap| && forall j :: 0 <= j < |heap| ==> heap[i].priority <= heap[j].priority
  {
    if |heap| > 1 {
      var h := heap[..|heap| - 1];
      LightestExists(h);
      var i :| 0 <= i < |h| && forall j :: 0 <= j < |h| ==> h[i].priority <= h[j].priority;
      if heap[|heap| - 1].priority < heap[i].priority {
        assert forall j :: 0 <= j < |heap| ==> heap[|heap| - 1].priority <= heap[j].priority;
      } else {
        assert forall j :: 0 <= j < |heap| ==> heap[i].priority <= heap[j].priority;
      }
    } else {
      assert forall j :: 0 <= j < |heap| ==> heap[0].priority <= heap[j].priority;
    }
  }

  /** Pushing a node adds its tree's values to the heap's. */
  lemma PushNode(heap: seq<Node>, z: Node)
    ensures HeapContent(heap + [z]) == HeapContent(heap) + Content(z)
  {
    Snoc(heap, z);
  }

  /** Pushing an item's leaf adds exactly that item to the heap's values. */
  lemma PushLeaf(heap: seq<Node>, item: Item)
    ensures HeapContent(heap + [LeafOf(item)]) == HeapContent(heap) + multiset{item}
  {
    PushNode(heap, LeafOf(item));
    LeafMeasures(item);
  }

  /** Pushing a leaf keeps every node balanced, and keeps the weight bound
      when the item respects it. */
  lemma PushLeafKeeps(heap: seq<Node>, item: Item, M: int)
    ensures (forall m :: m in heap ==> Balanced(m)) ==> forall m :: m in heap + [LeafOf(item)] ==> Balanced(m)
    ensures Bounded(heap, M) && 0 <= Weight(item) <= M ==> Bounded(heap + [LeafOf(item)], M)
  {
    LeafMeasures(item);
  }

  lemma OnlyNode(heap: seq<Node>)
    requires |heap| == 1
    ensures heap[0] in heap && HeapContent(heap) == Content(heap[0])
  {
    assert heap[..0] == [];
  }

  /** Removing the node at i removes its tree's values from the heap's. */
  lemma RemoveAt(heap: seq<Node>, i: nat)
    requires i < |heap|
    ensures HeapContent(heap) == HeapContent(heap[..i] + heap[i + 1..]) + Content(heap[i])
  {
    SplitAt(heap, i);
    HeapContentAppend(heap[..i] + [heap[i]], heap[i + 1..]);
    PushNode(heap[..i], heap[i]);
    HeapContentAppend(heap[..i], heap[i + 1..]);
  }

  /** Every node of the heap weighs between 0 and `M`. */
  predicate Bounded(heap: seq<Node>, M: int)
  {
    forall m :: m in heap ==> -M <= m.priority <= 0
  }

  /** What the colouring loop keeps: each side plus what the stack still
      owes it is the root's layer of that colour, and likewise for the
      signed weight. */
  ghost predicate ColourInv(root: Node, part0: seq<Item>, part1: seq<Item>, stack: seq<(Node, Colour)>)
  {
    && multiset(part0) + StackLayer(stack, 0) == Layer(root, 0)
    && multiset(part1) + StackLayer(stack, 1) == Layer(root, 1)
    && SumWeights(part0) - SumWeights(part1) + StackSigned(stack) == Signed(root)
  }

  /** The number of values the stack still holds. */
  function Pending(stack: seq<(Node, Colour)>): nat
  {
    |StackLayer(stack, 0)| + |StackLayer(stack, 1)|
  }

  /** One colouring step keeps the invariant: the popped entry hands its
      value to the side of its colour and the rest of its tree to its
      children, pushed with the other colour. */
  lemma ColourStep(root: Node, part0: seq<Item>, part1: seq<Item>, s: seq<(Node, Colour)>, node: Node, color: Colour, s': seq<(Node, Colour)>)
    requires ColourInv(root, part0, part1, s + [(node, color)])
    requires forall k :: 0 <= k < 2 ==>
               StackLayer(s', k) == StackLayer(s, k) + ChildLayer(node, |node.children|, if Flip(color) == k then 0 else 1)
    requires StackSigned(s') == StackSigned(s) + (if Flip(color) == 0 then ChildSigned(node, |node.children|) else -ChildSigned(node, |node.children|))
    ensures ColourInv(root, if color == 0 then part0 + [node.value] else part0,
                            if color == 1 then part1 + [node.value] else part1, s')
    ensures Pending(s') < Pending(s + [(node, color)])
  {
    var v := node.value;
    var top := s + [(node, color)];
    StackTop(s, node, color);
    LayerSplit(node);
    Snoc(part0, v);
    Snoc(part1, v);
    var here := ChildLayer(node, |node.children|, 1);
    var there := ChildLayer(node, |node.children|, 0);
    if color == 0 {
      Rebalance(multiset(part0), multiset{v}, StackLayer(s, 0), Layer(node, 0), here, Layer(root, 0));
      Rebalance(multiset(part1), multiset{}, StackLayer(s, 1), Layer(node, 1), there, Layer(root, 1));
    } else {
      Rebalance(multiset(part1), multiset{v}, StackLayer(s, 1), Layer(node, 0), here, Layer(root, 1));
      Rebalance(multiset(part0), multiset{}, StackLayer(s, 0), Layer(node, 1), there, Layer(root, 0));
    }
  }

  /** A side that takes Z while the stack trades X = Z + Y for Y still adds up to R. */
  lemma Rebalance(P: multiset<Item>, Z: multiset<Item>, S: multiset<Item>, X: multiset<Item>, Y: multiset<Item>, R: multiset<Item>)
    requires P + (S + X) == R && X == Z + Y
    ensures (P + Z) + (S + Y) == R
  {
  }

  /** The stack with `(node, color)` on top owes the node's layers on top of what `s` owes. */
  lemma StackTop(s: seq<(Node, Colour)>, node: Node, color: Colour)
    ensures StackLayer(s + [(node, color)], color) == StackLayer(s, color) + Layer(node, 0)
    ensures StackLayer(s + [(node, color)], 1 - color) == StackLayer(s, 1 - color) + Layer(node, 1)
    ensures StackSigned(s + [(node, color)]) == StackSigned(s) + (if color == 0 then Signed(node) else -Signed(node))
  {
    Snoc(s, (node, color));
  }

  /** A node's even layer is its value and its children's odd layers, and
      its odd layer its children's even layers. */
  lemma LayerSplit(n: Node)
    ensures Layer(n, 0) == multiset{n.value} + ChildLayer(n, |n.children|, 1)
    ensures Layer(n, 1) == ChildLayer(n, |n.children|, 0)
    ensures Signed(n) == Weight(n.value) - ChildSigned(n, |n.children|)
  {
  }

  /** One differencing step: the two heaviest nodes x and y leave the heap
      and their combination enters it. The heap keeps its values, its
      nodes stay balanced, and the new node weighs w(x) - w(y) >= 0. */
  lemma CombineStep(heap: seq<Node>, x: Node, rest: seq<Node>, y: Node, rest': seq<Node>, M: int)
    requires x in heap && (forall m :: m in heap ==> x.priority <= m.priority)
    requires forall m :: m in rest ==> m in heap
    requires y in rest && (forall m :: m in rest' ==> m in rest)
    requires HeapContent(heap) == HeapContent(rest) + Content(x)
    requires HeapContent(rest) == HeapContent(rest') + Content(y)
    requires forall m :: m in heap ==> Balanced(m)
    ensures HeapContent(rest' + [Combine(x, y)]) == HeapContent(heap)
    ensures forall m :: m in rest' + [Combine(x, y)] ==> Balanced(m)
    ensures Combine(x, y).priority <= 0
    ensures Bounded(heap, M) ==> Bounded(rest' + [Combine(x, y)], M)
  {
    var z := Combine(x, y);
    CombineMeasures(x, y);
    PushNode(rest', z);
    Regroup(HeapContent(heap), HeapContent(rest), HeapContent(rest'), Content(x), Content(y), Content(z));
  }

  lemma Regroup(H: multiset<Item>, H1: multiset<Item>, H2: multiset<Item>, X: multiset<Item>, Y: multiset<Item>, Z: multiset<Item>)
    requires H == H1 + X && H1 == H2 + Y && Z == X + Y
    ensures H2 + Z == H
  {
  }

  // ---------------------------------------------------------------------
  // The algorithm
  // ---------------------------------------------------------------------

  /** `heappop`: removes a node of least priority, that is of greatest
      weight; among equal priorities any one may come out. */
  method PopHeaviest(heap: seq<Node>) returns (x: Node, rest: seq<Node>)
    requires |heap| > 0
    ensures |rest| == |heap| - 1
    ensures x in heap && (forall m :: m in rest ==> m in heap)
    ensures forall m :: m in heap ==> x.priority <= m.priority
    ensures HeapContent(heap) == HeapContent(rest) + Content(x)
  {
    LightestExists(heap);
    var i :| 0 <= i < |heap| && forall j :: 0 <= j < |heap| ==> heap[i].priority <= heap[j].priority;
    x := heap[i];
    rest := heap[..i] + heap[i + 1..];
    RemoveAt(heap, i);
    RemoveKeeps(heap, i);
  }

  /** The leaves of all items, in input order. */
  method PushItems(items: seq<Item>) returns (heap: seq<Node>)
    ensures |heap| == |items|
    ensures HeapContent(heap) == multiset(items)
    ensures forall m :: m in heap ==> Balanced(m)
    ensures NonNegative(items) ==> Bounded(heap, Heaviest(items))
  {
    heap := [];
    for i := 0 to |items|
      invariant |heap| == i
      invariant HeapContent(heap) == multiset(items[..i])
      invariant forall m :: m in heap ==> Balanced(m)
      invariant NonNegative(items) ==> Bounded(heap, Heaviest(items))
    {
      PushLeaf(heap, items[i]);
      PrefixSnoc(items, i);
      PushLeafKeeps(heap, items[i], Heaviest(items));
      heap := heap + [LeafOf(items[i])];
    }
    assert items[..|items|] == items;
  }

  /** The heap phase: combine the two heaviest nodes until one root is left. */
  method Difference(items: seq<Item>) returns (root: Node)
    requires |items| > 0
    ensures Balanced(root) && Content(root) == multiset(items)
    ensures |items| >= 2 ==> root.priority <= 0
    ensures NonNegative(items) ==> -Heaviest(items) <= root.priority
  {
    var heap := PushItems(items);
    while |heap| > 1
      invariant |heap| >= 1
      invariant forall m :: m in heap ==> Balanced(m)
      invariant HeapContent(heap) == multiset(items)
      invariant |items| >= 2 && |heap| == 1 ==> heap[0].priority <= 0
      invariant NonNegative(items) ==> Bounded(heap, Heaviest(items))
      decreases |heap|
    {
      var x, rest := PopHeaviest(heap);
      var y, rest' := PopHeaviest(rest);
      var z := Combine(x, y);
      CombineStep(heap, x, rest, y, rest', Heaviest(items));
      heap := rest' + [z];
    }
    root := heap[0];
    OnlyNode(heap);
  }

  /** The colour of a side: 0 or 1. */
  type Colour = c: nat | c < 2

  /** The colour of a node's children, given its own. */
  function Flip(c: Colour): Colour
  {
    (c as int + 1) % 2
  }

  /** Sum over a stack of `Layer(n, q)`, with q == 0 when the entry's colour is `k`. */
  function StackLayer(stack: seq<(Node, Colour)>, k: nat): multiset<Item>
  {
    if stack == [] then multiset{}
    else
      var e := stack[|stack| - 1];
      StackLayer(stack[..|stack| - 1], k) + Layer(e.0, if e.1 == k then 0 else 1)
  }

  /** Sum over a stack of the signed weights, negated for colour 1 entries. */
  function StackSigned(stack: seq<(Node, Colour)>): int
  {
    if stack == [] then 0
    else
      var e := stack[|stack| - 1];
      StackSigned(stack[..|stack| - 1]) + (if e.1 == 0 then Signed(e.0) else -Signed(e.0))
  }

  /** The first k children of `n`, each paired with colour `c`. */
  function Tagged(n: Node, k: nat, c: Colour): (t: seq<(Node, Colour)>)
    requires k <= |n.children|
    ensures |t| == k && forall j :: 0 <= j < k ==> t[j] == (n.children[j], c)
  {
    if k == 0 then [] else Tagged(n, k - 1, c) + [(n.children[k - 1], c)]
  }

  /** Pushing the first k children of `n` with colour `c` adds their layers
      (the even ones to side c) and their signed weights to what the stack owes. */
  lemma {:induction false} TaggedMeasures(stack: seq<(Node, Colour)>, n: Node, k: nat, c: Colour)
    requires k <= |n.children|
    ensures forall q :: 0 <= q < 2 ==>
              StackLayer(stack + Tagged(n, k, c), q) == StackLayer(stack, q) + ChildLayer(n, k, if c == q then 0 else 1)
    ensures StackSigned(stack + Tagged(n, k, c)) == StackSigned(stack) + (if c == 0 then ChildSigned(n, k) else -ChildSigned(n, k))
  {
    if k == 0 {
      AppendNil(stack);
    } else {
      var s := stack + Tagged(n, k - 1, c);
      var x := n.children[k - 1];
      TaggedMeasures(stack, n, k - 1, c);
      assert stack + Tagged(n, k, c) == s + [(x, c)];
      Snoc(s, (x, c));
      forall q | 0 <= q < 2
        ensures StackLayer(s + [(x, c)], q) == StackLayer(stack, q) + ChildLayer(n, k, if c == q then 0 else 1)
      {
        var p := if c == q then 0 else 1;
        Assoc(StackLayer(stack, q), ChildLayer(n, k - 1, p), Layer(x, p));
      }
    }
  }

  lemma Assoc(A: multiset<Item>, B: multiset<Item>, C: multiset<Item>)
    ensures (A + B) + C == A + (B + C)
  {
  }

  /** Pushes every child of `n` with colour `c`, in order. */
  method PushChildren(stack: seq<(Node, Colour)>, n: Node, c: Colour) returns (s: seq<(Node, Colour)>)
    ensures s == stack + Tagged(n, |n.children|, c)
  {
    s := stack;
    AppendNil(stack);
    for i := 0 to |n.children|
      invariant s == stack + Tagged(n, i, c)
    {
      s := s + [(n.children[i], c)];
    }
  }

  /** The colouring phase: depth-first from the root with colour 0, each
      node's value goes to the side of its colour and its children get the
      other colour. */
  method TwoColour(root: Node) returns (part0: seq<Item>, part1: seq<Item>)
    ensures multiset(part0) == Layer(root, 0) && multiset(part1) == Layer(root, 1)
    ensures SumWeights(part0) - SumWeights(part1) == Signed(root)
  {
    part0, part1 := [], [];
    var stack: seq<(Node, Colour)> := [(root, 0)];
    Snoc([], (root, 0 as Colour));
    while |stack| > 0
      invariant ColourInv(root, part0, part1, stack)
      decreases Pending(stack)
    {
      var top := stack[|stack| - 1];
      var node, color := top.0, top.1;
      ghost var p0, p1, before := part0, part1, stack;
      stack := stack[..|stack| - 1];
      Unsnoc(before);
      if color == 0 {
        part0 := part0 + [node.value];
      } else {
        part1 := part1 + [node.value];
      }
      var stack' := PushChildren(stack, node, Flip(color));
      TaggedMeasures(stack, node, |node.children|, Flip(color));
      ColourStep(root, p0, p1, stack, node, color, stack');
      stack := stack';
    }
  }

  /** `karmarkar_karp`: splits the items into two sides of nearly equal
      weight. The source indexes the heap's first node, so an empty input is
      refused. */
  method KarmarkarKarp(items: seq<Item>) returns (part0: seq<Item>, part1: seq<Item>)
    requires |items| > 0
    ensures multiset(part0 + part1) == multiset(items)
    ensures |items| >= 2 ==> SumWeights(part0) >= SumWeights(part1)
    ensures NonNegative(items) ==> SumWeights(part0) - SumWeights(part1) <= Heaviest(items)
  {
    var root := Difference(items);
    part0, part1 := TwoColour(root);
  }

  // ---------------------------------------------------------------------
  // Coarse graining of a partition
  // ---------------------------------------------------------------------

  function Concat(parts: seq<seq<int>>): seq<int>
  {
    if parts == [] then [] else Concat(parts[..|parts| - 1]) + parts[|parts| - 1]
  }

  predicate AllGroups(items: seq<Item>)
  {
    forall i :: 0 <= i < |items| ==> items[i].Group?
  }

  /** The elements of all groups, in order. */
  function Flat(items: seq<Item>): seq<int>
    requires AllGroups(items)
  {
    if items == [] then [] else Flat(items[..|items| - 1]) + items[|items| - 1].elems
  }

  lemma {:induction false} FlatAppend(a: seq<Item>, b: seq<Item>)
    requires AllGroups(a) && AllGroups(b)
    ensures AllGroups(a + b) && Flat(a + b) == Flat(a) + Flat(b)
    decreases |b|
  {
    assert forall i :: 0 <= i < |a + b| ==> (a + b)[i] == if i < |a| then a[i] else b[i - |a|];
    if b != [] {
      var b' := b[..|b| - 1];
      AppendLast(a, b);
      FlatAppend(a, b');
    } else {
      AppendNil(a);
    }
  }

  /** Groups weigh their size, so a side's weight is its number of elements. */
  lemma {:induction false} FlatLength(items: seq<Item>)
    requires AllGroups(items)
    ensures |Flat(items)| == SumWeights(items)
  {
    if items != [] {
      FlatLength(items[..|items| - 1]);
    }
  }

  /** A permutation of groups is itself all groups. */
  lemma PermutedGroups(a: seq<Item>, b: seq<Item>)
    requires AllGroups(a) && multiset(a) == multiset(b)
    ensures AllGroups(b)
  {
    forall j | 0 <= j < |b|
      ensures b[j].Group?
    {
      assert b[j] in multiset(a);
    }
  }

  lemma SliceGroups(b: seq<Item>, j: nat)
    requires AllGroups(b) && j < |b|
    ensures AllGroups(b[..j]) && AllGroups([b[j]]) && AllGroups(b[j + 1..])
  {
    var v := b[j + 1..];
    forall i | 0 <= i < |v|
      ensures v[i].Group?
    {
      assert v[i] == b[j + 1 + i];
    }
  }

  lemma FlatSingle(x: Item)
    requires x.Group?
    ensures Flat([x]) == x.elems
  {
    assert [x][..0] == [];
  }

  lemma MultisetSplit3<T>(u: seq<T>, x: seq<T>, v: seq<T>)
    ensures multiset(u + x + v) == multiset(u + v) + multiset(x)
  {
  }

  /** Taking the group at j out of a sequence takes its elements out of the flattening. */
  lemma FlatRemove(b: seq<Item>, j: nat)
    requires AllGroups(b) && j < |b|
    ensures AllGroups(b[..j] + b[j + 1..])
    ensures multiset(Flat(b)) == multiset(Flat(b[..j] + b[j + 1..])) + multiset(b[j].elems)
  {
    var u, x, v := b[..j], b[j], b[j + 1..];
    SplitAt(b, j);
    SliceGroups(b, j);
    FlatAppend(u + [x], v);
    FlatAppend(u, [x]);
    FlatAppend(u, v);
    FlatSingle(x);
    assert Flat(b) == Flat(u) + x.elems + Flat(v);
    MultisetSplit3(Flat(u), x.elems, Flat(v));
  }

  /** Rearranging the groups rearranges their elements. */
  lemma {:induction false} FlatPermutation(a: seq<Item>, b: seq<Item>)
    requires AllGroups(a) && multiset(a) == multiset(b)
    ensures AllGroups(b) && multiset(Flat(a)) == multiset(Flat(b))
    decreases |a|
  {
    PermutedGroups(a, b);
    if a == [] {
      assert |b| == |multiset(b)| == 0;
    } else {
      var a' := a[..|a| - 1];
      var x := a[|a| - 1];
      Unsnoc(a);
      assert multiset(a) == multiset(a') + multiset{x};
      assert x in multiset(b);
      var j :| 0 <= j < |b| && b[j] == x;
      var b' := b[..j] + b[j + 1..];
      SplitAt(b, j);
      assert multiset(b) == multiset(b[..j]) + multiset{x} + multiset(b[j + 1..]);
      assert multiset(b') == multiset(b[..j]) + multiset(b[j + 1..]);
      assert multiset(b') == multiset(b) - multiset{x};
      assert multiset(a') == multiset(a) - multiset{x};
      FlatPermutation(a', b');
      FlatRemove(b, j);
      assert Flat(a) == Flat(a') + x.elems;
    }
  }

  function AsGroups(parts: seq<seq<int>>): (items: seq<Item>)
    ensures |items| == |parts| && AllGroups(items)
    ensures forall i :: 0 <= i < |parts| ==> items[i] == Group(parts[i])
  {
    seq(|parts|, i requires 0 <= i < |parts| => Group(parts[i]))
  }

  lemma {:induction false} FlatGroups(parts: seq<seq<int>>)
    ensures Flat(AsGroups(parts)) == Concat(parts)
  {
    if parts != [] {
      var p := parts[..|parts| - 1];
      assert AsGroups(parts)[..|parts| - 1] == AsGroups(p);
      FlatGroups(p);
    }
  }

  lemma {:induction false} HeaviestGroup(parts: seq<seq<int>>)
    ensures forall i :: 0 <= i < |parts| ==> |parts[i]| <= Heaviest(AsGroups(parts))
    ensures parts != [] ==> exists i :: 0 <= i < |parts| && |parts[i]| == Heaviest(AsGroups(parts))
  {
    if parts != [] {
      var p := parts[..|parts| - 1];
      assert AsGroups(parts)[..|parts| - 1] == AsGroups(p);
      HeaviestGroup(p);
      if p == [] {
        assert Heaviest(AsGroups(parts)) == |parts[0]|;
      } else {
        var i :| 0 <= i < |p| && |p[i]| == Heaviest(AsGroups(p));
        assert p[i] == parts[i];
      }
    }
  }

  /** `balanced_coarse_graining`: balances whole parts of a partition
      between two sides and flattens each side into one list of elements. */
  method BalancedCoarseGraining(parts: seq<seq<int>>) returns (side0: seq<int>, side1: seq<int>)
    requires |parts| > 0
    ensures multiset(side0 + side1) == multiset(Concat(parts))
    ensures |parts| >= 2 ==> |side0| >= |side1|
    ensures exists i :: 0 <= i < |parts| && |side0| - |side1| <= |parts[i]|
  {
    var items := AsGroups(parts);
    var part0, part1 := KarmarkarKarp(items);
    FlatPermutation(items, part0 + part1);
    assert AllGroups(part0) && AllGroups(part1) by {
      assert forall j :: 0 <= j < |part0| ==> part0[j] == (part0 + part1)[j];
      assert forall j :: 0 <= j < |part1| ==> part1[j] == (part0 + part1)[|part0| + j];
    }
    FlatAppend(part0, part1);
    side0, side1 := Flat(part0), Flat(part1);
    FlatGroups(parts);
    FlatLength(part0);
    FlatLength(part1);
    HeaviestGroup(parts);
  }
}
