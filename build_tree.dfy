/** Rooted trees as `Build2` builds them (asymmetree's `PhyloTreeNode`
    reduced to what the builder uses): leaves carry a leaf identifier, inner
    nodes their children in insertion order. A tree displays a triple ab|c
    when some subtree holds a and b but not c. */
module Trees {
  import opened Triples

  datatype Tree = LeafNode(leaf: Leaf) | Inner(children: seq<Tree>)

  /** The leaf identifiers below `T`. */
  function Leaves(T: Tree): set<Leaf>
  {
    match T
    case LeafNode(x) => {x}
    case Inner(ch) => set i, x | 0 <= i < |ch| && x in Leaves(ch[i]) :: x
  }

  /** The subtree `T` holds a and b but not c. */
  predicate Clusters(T: Tree, t: Triple)
  {
    t.a in Leaves(T) && t.b in Leaves(T) && t.c !in Leaves(T)
  }

  /** Some proper subtree of `T` holds a and b but not c. */
  predicate Splits(T: Tree, t: Triple)
  {
    match T
    case LeafNode(_) => false
    case Inner(ch) => exists i :: 0 <= i < |ch| && (Clusters(ch[i], t) || Splits(ch[i], t))
  }

  /** `T` displays ab|c: all three leaves occur in `T` and a proper subtree
      separates c from a and b. */
  predicate Displays(T: Tree, t: Triple)
  {
    Within(t, Leaves(T)) && Splits(T, t)
  }

  /** Every inner node has at least two children, and sibling subtrees have
      disjoint leaf sets. */
  predicate Phylogenetic(T: Tree)
  {
    match T
    case LeafNode(_) => true
    case Inner(ch) => |ch| >= 2 && Forest(ch)
  }

  /** Phylogenetic trees over pairwise disjoint leaf sets. */
  predicate Forest(ch: seq<Tree>)
  {
    && (forall i :: 0 <= i < |ch| ==> Phylogenetic(ch[i]))
    && (forall i, j :: 0 <= i < j < |ch| ==> Leaves(ch[i]) !! Leaves(ch[j]))
  }

  /** The inner node over two distinct leaves has exactly those leaves and
      is phylogenetic. */
  lemma Cherry(x: Leaf, y: Leaf)
    requires x != y
    ensures Leaves(Inner([LeafNode(x), LeafNode(y)])) == {x, y}
    ensures Phylogenetic(Inner([LeafNode(x), LeafNode(y)]))
  {
    var ch := [LeafNode(x), LeafNode(y)];
    assert Leaves(ch[0]) == {x} && Leaves(ch[1]) == {y};
    assert Forest(ch);
  }

  /** A proper subtree separating c from a and b contains a and b. */
  lemma {:induction false} SplitsCovers(T: Tree, t: Triple)
    ensures Splits(T, t) ==> t.a in Leaves(T) && t.b in Leaves(T)
  {
    if Splits(T, t) {
      var i :| 0 <= i < |T.children| && (Clusters(T.children[i], t) || Splits(T.children[i], t));
      SplitsCovers(T.children[i], t);
    }
  }

  /** Appending a child to an inner node adds its leaves, and the node then
      splits a triple iff it did before or the new child clusters or splits
      it. */
  lemma AddChild(ch: seq<Tree>, c: Tree, t: Triple)
    ensures Leaves(Inner(ch + [c])) == Leaves(Inner(ch)) + Leaves(c)
    ensures Splits(Inner(ch + [c]), t) <==> Splits(Inner(ch), t) || Clusters(c, t) || Splits(c, t)
  {
    var ch' := ch + [c];
    assert forall i :: 0 <= i < |ch| ==> ch'[i] == ch[i];
    assert ch'[|ch|] == c;
  }

  /** A child over leaves disjoint from its earlier siblings keeps a forest. */
  lemma AddToForest(ch: seq<Tree>, c: Tree)
    requires Forest(ch) && Phylogenetic(c) && Leaves(Inner(ch)) !! Leaves(c)
    ensures Forest(ch + [c])
  {
    var ch' := ch + [c];
    assert forall i :: 0 <= i < |ch| ==> ch'[i] == ch[i];
    forall i | 0 <= i < |ch|
      ensures Leaves(ch[i]) !! Leaves(c)
    {
      assert Leaves(ch[i]) <= Leaves(Inner(ch));
    }
  }
}
