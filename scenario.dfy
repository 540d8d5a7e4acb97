/** The counting helpers of `Scenario.py`: a scenario holds a species tree,
    the preorder of a true gene tree, the duplication/loss/transfer rates
    and the genes (the observable leaves, each reconciled to a species),
    and derives from them the event counts, the sorting of species into the
    subtrees below the first speciation, the outgroup genes of each
    subtree, the best match graphs restricted to those subtrees and the
    number of possible best match edges. */
module Scenario {
  import opened Wrappers

  type Label = int
  type Vertex = int

  /** A species tree node: its label and its children (`children`). */
  datatype SpeciesTree = SpeciesNode(name: Label, children: seq<SpeciesTree>)

  /** `preorder()`: a node, then the preorder of each child in turn. */
  function Preorder(t: SpeciesTree): seq<SpeciesTree>
  {
    [t] + PreorderAll(t.children)
  }

  function PreorderAll(ts: seq<SpeciesTree>): seq<SpeciesTree>
  {
    if |ts| == 0 then [] else PreorderAll(ts[..|ts| - 1]) + Preorder(ts[|ts| - 1])
  }

  /** The labels of the leaves below `t`, left to right (`leaf_dict()[t]`). */
  function LeafLabels(t: SpeciesTree): seq<Label>
  {
    if |t.children| == 0 then [t.name] else LeafLabelsAll(t.children)
  }

  function LeafLabelsAll(ts: seq<SpeciesTree>): seq<Label>
  {
    if |ts| == 0 then [] else LeafLabelsAll(ts[..|ts| - 1]) + LeafLabels(ts[|ts| - 1])
  }

  /** A node of the true gene tree as `_count_events` reads it: its event
      (`'D'`, `'L'`, `'H'` or another) and, for a duplication, the first
      species of the edge it is reconciled to (`reconc[0]`). */
  datatype GeneTreeNode = GeneTreeNode(event: string, reconcFrom: Label)

  /** An observable gene and the species leaf it is reconciled to. */
  datatype Gene = Gene(id: int, reconc: Label)

  /** A best match graph: nodes, their `color` (species) attribute and
      edges (arcs, for the directed one) in the order networkx lists them. */
  datatype ColouredGraph = ColouredGraph(nodes: seq<Vertex>, colour: map<Vertex, Label>, edges: seq<(Vertex, Vertex)>)

  // ---------------------------------------------------------------
  // gene_index
  // ---------------------------------------------------------------

  /** `{gene: i for i, gene in enumerate(genes)}`: a later position of
      the same gene overwrites an earlier one. */
  function GeneIndex(genes: seq<Gene>): (index: map<Gene, nat>)
    ensures forall g :: g in index <==> g in genes
    ensures forall g :: g in index ==> index[g] < |genes| && genes[index[g]] == g
  {
    if |genes| == 0 then map[]
    else GeneIndex(genes[..|genes| - 1])[genes[|genes| - 1] := |genes| - 1]
  }

  predicate Distinct<T(==)>(s: seq<T>)
  {
    forall i, j :: 0 <= i < j < |s| ==> s[i] != s[j]
  }

  /** Genes listed once each are found at their own position. */
  lemma GeneIndexPositions(genes: seq<Gene>)
    requires Distinct(genes)
    ensures forall i :: 0 <= i < |genes| ==> GeneIndex(genes)[genes[i]] == i
  {
    forall i | 0 <= i < |genes|
      ensures GeneIndex(genes)[genes[i]] == i
    {
      var index := GeneIndex(genes);
      assert genes[i] in index;
      var j := index[genes[i]];
      assert genes[j] == genes[i];
    }
  }

  // ---------------------------------------------------------------
  // _count_events
  // ---------------------------------------------------------------

  /** The nodes of `nodes` with event `e`. */
  function Occurrences(nodes: seq<GeneTreeNode>, e: string): nat
  {
    if |nodes| == 0 then 0
    else Occurrences(nodes[..|nodes| - 1], e) + (if nodes[|nodes| - 1].event == e then 1 else 0)
  }

  /** The duplications of `nodes` reconciled to an edge leaving the
      species root `root` (ancient duplications). */
  function Ancient(nodes: seq<GeneTreeNode>, root: Label): nat
  {
    if |nodes| == 0 then 0
    else
      var v := nodes[|nodes| - 1];
      Ancient(nodes[..|nodes| - 1], root) + (if v.event == "D" && v.reconcFrom == root then 1 else 0)
  }

  /** `event_counts`: species, duplications, losses, transfers, ancient
      duplications. */
  function EventCounts(speciesCount: nat, root: Label, nodes: seq<GeneTreeNode>): seq<nat>
  {
    [speciesCount, Occurrences(nodes, "D"), Occurrences(nodes, "L"), Occurrences(nodes, "H"), Ancient(nodes, root)]
  }

  /** Ancient duplications are duplications, and each node has one event. */
  lemma {:induction false} EventBounds(nodes: seq<GeneTreeNode>, root: Label)
    ensures Ancient(nodes, root) <= Occurrences(nodes, "D")
    ensures Occurrences(nodes, "D") + Occurrences(nodes, "L") + Occurrences(nodes, "H") <= |nodes|
  {
    if |nodes| > 0 {
      EventBounds(nodes[..|nodes| - 1], root);
    }
  }

  // ---------------------------------------------------------------
  // _sort_species_to_subtrees
  // ---------------------------------------------------------------

  /** The first node of `nodes` with more than one child. */
  function FirstBranching(nodes: seq<SpeciesTree>): (r: Option<SpeciesTree>)
    ensures r.Some? ==>
      && |r.value.children| > 1
      && exists j :: 0 <= j < |nodes| && nodes[j] == r.value && forall k :: 0 <= k < j ==> |nodes[k].children| <= 1
    ensures r.None? ==> forall k :: 0 <= k < |nodes| ==> |nodes[k].children| <= 1
  {
    if |nodes| == 0 then None
    else if |nodes[0].children| > 1 then Some(nodes[0])
    else
      var r := FirstBranching(nodes[1..]);
      assert r.Some? ==> exists j :: 1 <= j < |nodes| && nodes[j] == r.value && forall k :: 0 <= k < j ==> |nodes[k].children| <= 1 by {
        if r.Some? {
          var j :| 0 <= j < |nodes[1..]| && nodes[1..][j] == r.value && forall k :: 0 <= k < j ==> |nodes[1..][k].children| <= 1;
          assert forall k :: 1 <= k < j + 1 ==> nodes[k] == nodes[1..][k - 1];
        }
      }
      r
  }

  /** `subtree_list`: the leaf labels below each child of the first
      branching node of the species tree, none when no node branches. */
  function SubtreeLists(S: SpeciesTree): seq<seq<Label>>
  {
    match FirstBranching(Preorder(S))
    case None => []
    case Some(u) => seq(|u.children|, i requires 0 <= i < |u.children| => LeafLabels(u.children[i]))
  }

  /** `{item: i for item in leaves}`. */
  function SortedTo(leaves: seq<Label>, i: nat): (m: map<Label, nat>)
    ensures forall l :: l in m <==> l in leaves
    ensures forall l :: l in m ==> m[l] == i
  {
    map l | l in leaves :: i
  }

  /** `subtree_index` after one `update` per subtree: each label maps to
      the last subtree listing it. */
  function Index(lists: seq<seq<Label>>): (index: map<Label, nat>)
    ensures forall l :: l in index <==> exists i :: 0 <= i < |lists| && l in lists[i]
    ensures forall l :: l in index ==> index[l] < |lists| && l in lists[index[l]]
  {
    if |lists| == 0 then map[]
    else
      Index(lists[..|lists| - 1]) + SortedTo(lists[|lists| - 1], |lists| - 1)
  }

  lemma IndexSnoc(lists: seq<seq<Label>>, leaves: seq<Label>)
    ensures Index(lists + [leaves]) == Index(lists) + SortedTo(leaves, |lists|)
  {
    assert (lists + [leaves])[..|lists|] == lists;
  }

  /** Subtrees sharing no label. */
  ghost predicate Disjoint(lists: seq<seq<Label>>)
  {
    forall i, j, l :: 0 <= i < j < |lists| && l in lists[i] ==> l !in lists[j]
  }

  /** With no label in two subtrees, every species leaf under child i is
      sorted to i. */
  lemma {:induction false} IndexOfDisjoint(lists: seq<seq<Label>>, i: nat, l: Label)
    requires Disjoint(lists) && i < |lists| && l in lists[i]
    ensures l in Index(lists) && Index(lists)[l] == i
  {
    var index := Index(lists);
    assert l in index;
    assert l in lists[index[l]];
  }

  /** Every gene's species is sorted into a subtree. */
  predicate Placed(genes: seq<Gene>, index: map<Label, nat>)
  {
    forall j :: 0 <= j < |genes| ==> genes[j].reconc in index
  }

  /** `outgroup_dict[i]`: the genes, in gene order, whose species is not
      sorted into subtree i. */
  function Outgroup(genes: seq<Gene>, index: map<Label, nat>, i: nat): seq<Gene>
    requires Placed(genes, index)
  {
    if |genes| == 0 then []
    else
      var g := genes[|genes| - 1];
      Outgroup(genes[..|genes| - 1], index, i) + (if index[g.reconc] != i then [g] else [])
  }

  /** `d` is `outgroup_dict` for `n` subtrees. */
  ghost predicate IsOutgroups(d: map<nat, seq<Gene>>, genes: seq<Gene>, index: map<Label, nat>, n: nat)
  {
    && (forall i: nat :: i in d <==> i < n)
    && (n > 0 ==> Placed(genes, index))
    && (forall i :: 0 <= i < n ==> d[i] == Outgroup(genes, index, i))
  }

  /** `outgroup_dict[i]` holds exactly the genes not sorted to subtree i. */
  lemma {:induction false} OutgroupMembers(genes: seq<Gene>, index: map<Label, nat>, i: nat)
    requires Placed(genes, index)
    ensures forall g :: g in Outgroup(genes, index, i) <==> g in genes && index[g.reconc] != i
  {
    if |genes| > 0 {
      var front := genes[..|genes| - 1];
      OutgroupMembers(front, index, i);
      assert genes == front + [genes[|genes| - 1]];
    }
  }

  /** So, with subtrees sharing no label, `outgroup_dict[i]` holds exactly
      the genes whose species is not in subtree i. */
  lemma OutgroupsAreOutside(genes: seq<Gene>, lists: seq<seq<Label>>, i: nat)
    requires Disjoint(lists) && i < |lists| && Placed(genes, Index(lists))
    ensures forall g :: g in Outgroup(genes, Index(lists), i) <==> g in genes && g.reconc !in lists[i]
  {
    OutgroupMembers(genes, Index(lists), i);
    forall g | g in genes
      ensures Index(lists)[g.reconc] != i <==> g.reconc !in lists[i]
    {
      var j :| 0 <= j < |genes| && genes[j] == g;
      assert g.reconc in Index(lists);
      if g.reconc in lists[i] {
        IndexOfDisjoint(lists, i, g.reconc);
      }
    }
  }

  // ---------------------------------------------------------------
  // reduce_to_subtrees
  // ---------------------------------------------------------------

  /** The colour and subtree lookups for edge `e` succeed. */
  predicate EdgeOk(G: ColouredGraph, index: map<Label, nat>, e: (Vertex, Vertex))
  {
    e.0 in G.colour && e.1 in G.colour && G.colour[e.0] in index && G.colour[e.1] in index
  }

  predicate EdgesOk(G: ColouredGraph, index: map<Label, nat>)
  {
    forall j :: 0 <= j < |G.edges| ==> EdgeOk(G, index, G.edges[j])
  }

  /** An edge whose endpoints' species lie in one subtree. */
  predicate Inside(G: ColouredGraph, index: map<Label, nat>, e: (Vertex, Vertex))
    requires EdgeOk(G, index, e)
  {
    index[G.colour[e.0]] == index[G.colour[e.1]]
  }

  /** The edges `reduce_to_subtrees` keeps, in order. */
  function Kept(G: ColouredGraph, index: map<Label, nat>, edges: seq<(Vertex, Vertex)>): seq<(Vertex, Vertex)>
    requires forall j :: 0 <= j < |edges| ==> EdgeOk(G, index, edges[j])
  {
    if |edges| == 0 then []
    else
      var e := edges[|edges| - 1];
      Kept(G, index, edges[..|edges| - 1]) + (if Inside(G, index, e) then [e] else [])
  }

  /** An edge is kept iff it is an edge of the graph joining two species
      of one subtree. */
  lemma {:induction false} KeptEdges(G: ColouredGraph, index: map<Label, nat>, edges: seq<(Vertex, Vertex)>)
    requires forall j :: 0 <= j < |edges| ==> EdgeOk(G, index, edges[j])
    ensures forall e :: e in Kept(G, index, edges) <==> e in edges && Inside(G, index, e)
  {
    if |edges| > 0 {
      var front := edges[..|edges| - 1];
      KeptEdges(G, index, front);
      assert edges == front + [edges[|edges| - 1]];
    }
  }

  /** `H` is `G` with all its nodes and their attributes, and only its
      edges within one subtree. */
  ghost predicate Reduced(G: ColouredGraph, index: map<Label, nat>, H: ColouredGraph)
  {
    EdgesOk(G, index) && H == ColouredGraph(G.nodes, G.colour, Kept(G, index, G.edges))
  }

  /** The restriction of one graph: all its nodes with their attributes,
      and its edges within a subtree; `KeyError` when a lookup fails. */
  method ReduceGraph(G: ColouredGraph, index: map<Label, nat>) returns (r: Result<ColouredGraph>)
    ensures r.Failure? <==> !EdgesOk(G, index)
    ensures r.Failure? ==> r.error == KeyError
    ensures r.Success? ==> Reduced(G, index, r.value)
  {
    var kept := [];
    for j := 0 to |G.edges|
      invariant forall k :: 0 <= k < j ==> EdgeOk(G, index, G.edges[k])
      invariant kept == Kept(G, index, G.edges[..j])
    {
      var (u, v) := G.edges[j];
      if u !in G.colour || v !in G.colour {
        return Failure(KeyError);
      }
      var uColour, vColour := G.colour[u], G.colour[v];
      if uColour !in index || vColour !in index {
        return Failure(KeyError);
      }
      assert G.edges[..j + 1][..j] == G.edges[..j] && G.edges[..j + 1][j] == (u, v);
      if index[uColour] == index[vColour] {
        kept := kept + [(u, v)];
      }
    }
    assert G.edges[..|G.edges|] == G.edges;
    return Success(ColouredGraph(G.nodes, G.colour, kept));
  }

  // ---------------------------------------------------------------
  // possible_edges_bmg
  // ---------------------------------------------------------------

  /** The genes reconciled into subtree i. */
  function Tally(genes: seq<Gene>, index: map<Label, nat>, i: nat): nat
    requires Placed(genes, index)
  {
    if |genes| == 0 then 0
    else Tally(genes[..|genes| - 1], index, i) + (if index[genes[|genes| - 1].reconc] == i then 1 else 0)
  }

  /** `count * (count - 1)`: the ordered pairs of distinct genes among
      `count`. */
  function OrderedPairs(count: nat): nat
  {
    if count == 0 then 0 else count * (count - 1)
  }

  /** Σ count·(count − 1) over the first n subtrees. */
  function PossibleEdges(genes: seq<Gene>, index: map<Label, nat>, n: nat): nat
    requires Placed(genes, index)
  {
    if n == 0 then 0
    else PossibleEdges(genes, index, n - 1) + OrderedPairs(Tally(genes, index, n - 1))
  }

  /** For each gene of `genes`, the genes of `all` other than itself in
      its subtree: the ordered pairs of distinct genes of one subtree. */
  function Partners(genes: seq<Gene>, all: seq<Gene>, index: map<Label, nat>): int
    requires Placed(genes, index) && Placed(all, index)
  {
    if |genes| == 0 then 0
    else Partners(genes[..|genes| - 1], all, index) + Tally(all, index, index[genes[|genes| - 1].reconc]) - 1
  }

  /** Σ over the first n subtrees of (genes of `genes` there) times
      (genes of `all` there, less one). */
  function Mixed(genes: seq<Gene>, all: seq<Gene>, index: map<Label, nat>, n: nat): int
    requires Placed(genes, index) && Placed(all, index)
  {
    if n == 0 then 0
    else Mixed(genes, all, index, n - 1) + Tally(genes, index, n - 1) * (Tally(all, index, n - 1) - 1)
  }

  /** One more gene, sorted to subtree s < n, adds its partners once. */
  lemma {:induction false} MixedSnoc(genes: seq<Gene>, g: Gene, all: seq<Gene>, index: map<Label, nat>, n: nat)
    requires Placed(genes + [g], index) && Placed(all, index) && g.reconc in index
    ensures Placed(genes, index)
    ensures Mixed(genes + [g], all, index, n) ==
      Mixed(genes, all, index, n) + (if index[g.reconc] < n then Tally(all, index, index[g.reconc]) - 1 else 0)
  {
    assert (genes + [g])[..|genes|] == genes;
    assert forall j :: 0 <= j < |genes| ==> genes[j] == (genes + [g])[j];
    if n > 0 {
      MixedSnoc(genes, g, all, index, n - 1);
    }
  }

  /** Counting pairs gene by gene or subtree by subtree agrees. */
  lemma {:induction false} PartnersBySubtree(genes: seq<Gene>, all: seq<Gene>, index: map<Label, nat>, n: nat)
    requires Placed(genes, index) && Placed(all, index)
    requires forall j :: 0 <= j < |genes| ==> index[genes[j].reconc] < n
    ensures Partners(genes, all, index) == Mixed(genes, all, index, n)
  {
    if |genes| > 0 {
      var front, g := genes[..|genes| - 1], genes[|genes| - 1];
      assert genes == front + [g];
      PartnersBySubtree(front, all, index, n);
      MixedSnoc(front, g, all, index, n);
    } else {
      MixedNil(all, index, n);
    }
  }

  lemma {:induction false} MixedNil(all: seq<Gene>, index: map<Label, nat>, n: nat)
    requires Placed(all, index)
    ensures Mixed([], all, index, n) == 0
  {
    if n > 0 {
      MixedNil(all, index, n - 1);
    }
  }

  lemma {:induction false} MixedSelf(all: seq<Gene>, index: map<Label, nat>, n: nat)
    requires Placed(all, index)
    ensures Mixed(all, all, index, n) == PossibleEdges(all, index, n)
  {
    if n > 0 {
      MixedSelf(all, index, n - 1);
    }
  }

  /** `possible_edges_bmg` counts, for every gene, the other genes
      reconciled into its subtree: the ordered pairs of distinct genes
      that a best match graph restricted to the subtrees can join. */
  lemma PossibleEdgesArePairs(genes: seq<Gene>, index: map<Label, nat>, n: nat)
    requires Placed(genes, index) && forall j :: 0 <= j < |genes| ==> index[genes[j].reconc] < n
    ensures PossibleEdges(genes, index, n) == Partners(genes, genes, index)
  {
    PartnersBySubtree(genes, genes, index, n);
    MixedSelf(genes, index, n);
  }

  /** The count loop of `possible_edges_bmg`: `counts[i]` is the number
      of genes reconciled into subtree i, or `KeyError` for a gene whose
      species is in no subtree. */
  method SubtreeCounts(genes: seq<Gene>, index: map<Label, nat>, n: nat) returns (r: Result<seq<nat>>)
    requires forall l :: l in index ==> index[l] < n
    ensures r.Failure? <==> !Placed(genes, index)
    ensures r.Failure? ==> r.error == KeyError
    ensures r.Success? ==>
      Placed(genes, index) && |r.value| == n && forall i :: 0 <= i < n ==> r.value[i] == Tally(genes, index, i)
  {
    var counts := seq(n, _ => 0);
    for j := 0 to |genes|
      invariant Placed(genes[..j], index)
      invariant |counts| == n && forall i :: 0 <= i < n ==> counts[i] == Tally(genes[..j], index, i)
    {
      var g := genes[j];
      if g.reconc !in index {
        return Failure(KeyError);
      }
      assert genes[..j + 1][..j] == genes[..j] && genes[..j + 1][j] == g;
      var s := index[g.reconc];
      counts := counts[s := counts[s] + 1];
    }
    assert genes[..|genes|] == genes;
    return Success(counts);
  }

  /** The sum loop of `possible_edges_bmg`. */
  method PairSum(counts: seq<nat>) returns (possible: nat)
    ensures possible == Pairings(counts)
  {
    possible := 0;
    for i := 0 to |counts|
      invariant possible == Pairings(counts[..i])
    {
      assert counts[..i + 1][..i] == counts[..i] && counts[..i + 1][i] == counts[i];
      possible := possible + OrderedPairs(counts[i]);
    }
    assert counts[..|counts|] == counts;
  }

  /** Σ count·(count − 1) over a list of counts. */
  function Pairings(counts: seq<nat>): nat
  {
    if |counts| == 0 then 0
    else Pairings(counts[..|counts| - 1]) + OrderedPairs(counts[|counts| - 1])
  }

  lemma {:induction false} PairingsOfTallies(counts: seq<nat>, genes: seq<Gene>, index: map<Label, nat>, n: nat)
    requires Placed(genes, index) && n <= |counts|
    requires forall i :: 0 <= i < |counts| ==> counts[i] == Tally(genes, index, i)
    ensures Pairings(counts[..n]) == PossibleEdges(genes, index, n)
  {
    if n > 0 {
      PairingsOfTallies(counts, genes, index, n - 1);
      assert counts[..n][..n - 1] == counts[..n - 1];
    }
  }

  // ---------------------------------------------------------------
  // The scenario object
  // ---------------------------------------------------------------

  /** What `_sort_species_to_subtrees` sets: `subtree_list`,
      `subtree_index` and `outgroup_dict`. */
  datatype Sorting = Sorting(subtreeList: seq<seq<Label>>, subtreeIndex: map<Label, nat>,
                             outgroupDict: map<nat, seq<Gene>>)

  /** `sorting` is the sorting of `genes` into the subtrees of `S`. */
  ghost predicate SortedInto(S: SpeciesTree, genes: seq<Gene>, sorting: Sorting)
  {
    && sorting.subtreeList == SubtreeLists(S)
    && sorting.subtreeIndex == Index(sorting.subtreeList)
    && IsOutgroups(sorting.outgroupDict, genes, sorting.subtreeIndex, |sorting.subtreeList|)
  }

  /** `_count_events`: one pass over the preorder of the true gene tree. */
  method CountEvents(numberOfSpecies: nat, root: Label, geneTree: seq<GeneTreeNode>) returns (counts: seq<nat>)
    ensures counts == EventCounts(numberOfSpecies, root, geneTree)
  {
    counts := [numberOfSpecies, 0, 0, 0, 0];
    for j := 0 to |geneTree|
      invariant counts == EventCounts(numberOfSpecies, root, geneTree[..j])
    {
      var v := geneTree[j];
      assert geneTree[..j + 1][..j] == geneTree[..j] && geneTree[..j + 1][j] == v;
      if v.event == "D" {
        counts := counts[1 := counts[1] + 1];
        if root == v.reconcFrom {
          counts := counts[4 := counts[4] + 1];
        }
      } else if v.event == "L" {
        counts := counts[2 := counts[2] + 1];
      } else if v.event == "H" {
        counts := counts[3 := counts[3] + 1];
      }
    }
    assert geneTree[..|geneTree|] == geneTree;
  }

  /** `_sort_species_to_subtrees`: the subtrees below the first branching
      node and the outgroup genes of each, or `KeyError` when there are
      subtrees and some gene's species is in none of them. */
  method SortSpeciesToSubtrees(S: SpeciesTree, genes: seq<Gene>) returns (r: Result<Sorting>)
    ensures r.Failure? <==> |SubtreeLists(S)| > 0 && !Placed(genes, Index(SubtreeLists(S)))
    ensures r.Failure? ==> r.error == KeyError
    ensures r.Success? ==> SortedInto(S, genes, r.value)
  {
    var order := Preorder(S);
    var branching := FindBranching(order);
    var lists, index := [], map[];
    if branching.Some? {
      lists, index := Subtrees(branching.value);
    }
    var d := Outgroups(genes, index, |lists|);
    if d.Failure? {
      return Failure(d.error);
    }
    return Success(Sorting(lists, index, d.value));
  }

  /** `reduce_to_subtrees(full_bmg, full_rbmg)` under `subtree_index`:
      both graphs with only their edges inside one subtree. */
  method ReduceToSubtrees(index: map<Label, nat>, bmg: ColouredGraph, rbmg: ColouredGraph)
    returns (r: Result<(ColouredGraph, ColouredGraph)>)
    ensures r.Failure? <==> !EdgesOk(bmg, index) || !EdgesOk(rbmg, index)
    ensures r.Failure? ==> r.error == KeyError
    ensures r.Success? ==> Reduced(bmg, index, r.value.0) && Reduced(rbmg, index, r.value.1)
  {
    var b := ReduceGraph(bmg, index);
    if b.Failure? {
      return Failure(b.error);
    }
    var rb := ReduceGraph(rbmg, index);
    if rb.Failure? {
      return Failure(rb.error);
    }
    return Success((b.value, rb.value));
  }

  class Scenario {
    /** `S`, its `number_of_species`, `TGT.preorder()`, `DLH_rates`,
        `genes` as `reconc_sorted_leaves` lists them, and what the
        constructor derives from them. */
    const species: SpeciesTree
    const numberOfSpecies: nat
    const geneTree: seq<GeneTreeNode>
    const rates: (real, real, real)
    const genes: seq<Gene>
    const geneIndex: map<Gene, nat>
    const eventCounts: seq<nat>
    const subtreeList: seq<seq<Label>>
    const subtreeIndex: map<Label, nat>
    const outgroupDict: map<nat, seq<Gene>>
    const bmgSubtrees: ColouredGraph
    const rbmgSubtrees: ColouredGraph

    /** The derived attributes agree with the inputs. */
    ghost predicate Valid()
    {
      && geneIndex == GeneIndex(genes)
      && eventCounts == EventCounts(numberOfSpecies, species.name, geneTree)
      && SortedInto(species, genes, Sorting(subtreeList, subtreeIndex, outgroupDict))
    }

    /** `Scenario(S, TGT, dupl_rate, loss_rate, hgt_rate)` once the
        observable tree, its genes and its best match graphs are known:
        `gene_index`, the event counts, the subtrees and the graphs
        restricted to them, or the `KeyError` of a gene or a graph node
        whose species lies in no subtree. */
    static method Create(species: SpeciesTree, numberOfSpecies: nat, geneTree: seq<GeneTreeNode>,
                         rates: (real, real, real), genes: seq<Gene>,
                         bmg: ColouredGraph, rbmg: ColouredGraph) returns (r: Result<Scenario>)
      ensures r.Failure? <==> var index := Index(SubtreeLists(species));
        || (|SubtreeLists(species)| > 0 && !Placed(genes, index))
        || !EdgesOk(bmg, index) || !EdgesOk(rbmg, index)
      ensures r.Failure? ==> r.error == KeyError
      ensures r.Success? ==> var s := r.value;
        && s.Valid() && s.species == species && s.numberOfSpecies == numberOfSpecies
        && s.geneTree == geneTree && s.rates == rates && s.genes == genes
        && Reduced(bmg, s.subtreeIndex, s.bmgSubtrees) && Reduced(rbmg, s.subtreeIndex, s.rbmgSubtrees)
    {
      var counts := CountEvents(numberOfSpecies, species.name, geneTree);
      var sorted := SortSpeciesToSubtrees(species, genes);
      if sorted.Failure? {
        return Failure(sorted.error);
      }
      var sorting := sorted.value;
      var reduced := ReduceToSubtrees(sorting.subtreeIndex, bmg, rbmg);
      if reduced.Failure? {
        return Failure(reduced.error);
      }
      var s := new Scenario(species, numberOfSpecies, geneTree, rates, genes, counts, sorting, reduced.value);
      return Success(s);
    }

    constructor (species: SpeciesTree, numberOfSpecies: nat, geneTree: seq<GeneTreeNode>,
                 rates: (real, real, real), genes: seq<Gene>, eventCounts: seq<nat>,
                 sorting: Sorting, reduced: (ColouredGraph, ColouredGraph))
      ensures this.species == species && this.numberOfSpecies == numberOfSpecies
      ensures this.geneTree == geneTree && this.rates == rates && this.genes == genes
      ensures geneIndex == GeneIndex(genes) && this.eventCounts == eventCounts
      ensures Sorting(subtreeList, subtreeIndex, outgroupDict) == sorting
      ensures bmgSubtrees == reduced.0 && rbmgSubtrees == reduced.1
    {
      this.species, this.numberOfSpecies, this.geneTree := species, numberOfSpecies, geneTree;
      this.rates, this.genes := rates, genes;
      geneIndex := GeneIndex(genes);
      this.eventCounts := eventCounts;
      subtreeList, subtreeIndex, outgroupDict := sorting.subtreeList, sorting.subtreeIndex, sorting.outgroupDict;
      bmgSubtrees, rbmgSubtrees := reduced.0, reduced.1;
    }

    /** `rates_and_counts`: the three rates, then the five event counts. */
    function RatesAndCounts(): (r: seq<real>)
      requires |eventCounts| == 5
      ensures |r| == 8 && r[0] == rates.0 && r[1] == rates.1 && r[2] == rates.2
      ensures forall i :: 0 <= i < 5 ==> r[3 + i] == eventCounts[i] as real
    {
      [rates.0, rates.1, rates.2] + [eventCounts[0] as real, eventCounts[1] as real, eventCounts[2] as real,
        eventCounts[3] as real, eventCounts[4] as real]
    }

    /** `possible_edges_bmg`: Σ count·(count − 1) over the subtrees,
        `count` the genes reconciled into each, or `KeyError` for a gene
        whose species is in no subtree. */
    method PossibleEdgesBmg() returns (r: Result<nat>)
      requires Valid()
      ensures r.Failure? <==> !Placed(genes, subtreeIndex)
      ensures r.Failure? ==> r.error == KeyError
      ensures r.Success? ==> Placed(genes, subtreeIndex) && r.value == PossibleEdges(genes, subtreeIndex, |subtreeList|)
    {
      var n := |subtreeList|;
      var counts := SubtreeCounts(genes, subtreeIndex, n);
      if counts.Failure? {
        return Failure(counts.error);
      }
      var possible := PairSum(counts.value);
      PairingsOfTallies(counts.value, genes, subtreeIndex, n);
      assert counts.value[..n] == counts.value;
      return Success(possible);
    }
  }

  /** The preorder search for the first node with more than one child. */
  method FindBranching(order: seq<SpeciesTree>) returns (r: Option<SpeciesTree>)
    ensures r == FirstBranching(order)
  {
    var j := 0;
    while j < |order|
      invariant j <= |order| && FirstBranching(order) == FirstBranching(order[j..])
    {
      if |order[j].children| > 1 {
        return Some(order[j]);
      }
      assert order[j..][1..] == order[j + 1..];
      j := j + 1;
    }
    return None;
  }

  /** The subtree loop: for each child of `u`, its leaf labels appended to
      the list and sorted to its position in the index. */
  method Subtrees(u: SpeciesTree) returns (lists: seq<seq<Label>>, index: map<Label, nat>)
    ensures lists == seq(|u.children|, i requires 0 <= i < |u.children| => LeafLabels(u.children[i]))
    ensures index == Index(lists)
  {
    lists, index := [], map[];
    for i := 0 to |u.children|
      invariant |lists| == i && forall k :: 0 <= k < i ==> lists[k] == LeafLabels(u.children[k])
      invariant index == Index(lists)
    {
      var leaves := LeafLabels(u.children[i]);
      IndexSnoc(lists, leaves);
      lists, index := lists + [leaves], index + SortedTo(leaves, i);
    }
  }

  /** The outgroup loop: for each gene, in order, and each subtree i, the
      gene is appended to `outgroup_dict[i]` unless it is sorted to i. */
  method Outgroups(genes: seq<Gene>, index: map<Label, nat>, n: nat) returns (r: Result<map<nat, seq<Gene>>>)
    ensures r.Failure? <==> n > 0 && !Placed(genes, index)
    ensures r.Failure? ==> r.error == KeyError
    ensures r.Success? ==> IsOutgroups(r.value, genes, index, n)
  {
    var d: map<nat, seq<Gene>> := map[];
    for i := 0 to n
      invariant forall k: nat :: k in d <==> k < i
      invariant forall k :: 0 <= k < i ==> d[k] == []
    {
      d := d[i := []];
    }
    if n == 0 {
      return Success(d);
    }
    for j := 0 to |genes|
      invariant Placed(genes[..j], index)
      invariant IsOutgroups(d, genes[..j], index, n)
    {
      var g := genes[j];
      if g.reconc !in index {
        return Failure(KeyError);
      }
      assert genes[..j + 1][..j] == genes[..j] && genes[..j + 1][j] == g;
      d := AddGene(d, genes[..j], g, index, n);
    }
    assert genes[..|genes|] == genes;
    return Success(d);
  }

  /** One gene of the outgroup loop, over the subtrees in order. */
  method AddGene(d: map<nat, seq<Gene>>, done: seq<Gene>, g: Gene, index: map<Label, nat>, n: nat)
    returns (d': map<nat, seq<Gene>>)
    requires n > 0 && Placed(done + [g], index) && IsOutgroups(d, done, index, n)
    ensures IsOutgroups(d', done + [g], index, n)
  {
    var genes := done + [g];
    assert genes[..|genes| - 1] == done && genes[|genes| - 1] == g;
    d' := d;
    for i := 0 to n
      invariant forall k: nat :: k in d' <==> k < n
      invariant forall k :: 0 <= k < i ==> d'[k] == Outgroup(genes, index, k)
      invariant forall k :: i <= k < n ==> d'[k] == Outgroup(done, index, k)
    {
      if index[g.reconc] != i {
        d' := d'[i := d'[i] + [g]];
      }
    }
  }
}
