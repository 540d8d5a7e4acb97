/** When a triple set can be built at all: `R` and `F` are consistent on a
    leaf set `L` when some phylogenetic tree on `L` displays every triple
    of `R` and none of `F`. The proofs work with the cluster sets of such
    trees (hierarchies): the maximal proper clusters of a hierarchy that
    displays `R` and avoids `F` form a partition of `L` into two or more
    blocks that keeps the Aho edges inside blocks and separates no
    forbidden triple, and a hierarchy restricts to any block. This is the
    completeness half of BUILD and MTT in src/bmgedit/Build.py: on
    consistent input the strict builder never meets a connected graph. */
module Consistency {
  import opened Triples
  import opened AhoGraph
  import opened Mtt
  import opened Trees

  /** Some phylogenetic tree on `L` displays every triple of `R` and no
      triple of `F`. */
  ghost predicate Compatible(R: seq<Triple>, F: seq<Triple>, L: set<Leaf>)
  {
    exists T :: TreeFor(T, R, F, L)
  }

  /** `T` is a phylogenetic tree on `L` displaying every triple of `R` and
      no triple of `F`. */
  ghost predicate TreeFor(T: Tree, R: seq<Triple>, F: seq<Triple>, L: set<Leaf>)
  {
    Phylogenetic(T) && Leaves(T) == L &&
      (forall t :: t in R ==> Displays(T, t)) && (forall t :: t in F ==> !Displays(T, t))
  }

  /** `H` is a hierarchy on `L`: non-empty clusters inside `L`, among them
      `L` and every singleton, any two nested or disjoint. */
  ghost predicate Hierarchy(H: set<set<Leaf>>, L: set<Leaf>)
  {
    && L in H
    && (forall x :: x in L ==> {x} in H)
    && (forall C :: C in H ==> C != {} && C <= L)
    && (forall C, D :: C in H && D in H ==> C <= D || D <= C || C !! D)
  }

  /** Some cluster of `H` holds a and b but not c. */
  ghost predicate HDisplays(H: set<set<Leaf>>, t: Triple)
  {
    exists C :: C in H && t.a in C && t.b in C && t.c !in C
  }

  /** Some hierarchy on `L` displays every triple of `R` and no triple of `F`. */
  ghost predicate Consistent(R: seq<Triple>, F: seq<Triple>, L: set<Leaf>)
  {
    exists H :: HierarchyFor(H, R, F, L)
  }

  /** `H` is a hierarchy on `L` displaying every triple of `R` and no
      triple of `F`. */
  ghost predicate HierarchyFor(H: set<set<Leaf>>, R: seq<Triple>, F: seq<Triple>, L: set<Leaf>)
  {
    Hierarchy(H, L) && (forall t :: t in R ==> HDisplays(H, t)) && (forall t :: t in F ==> !HDisplays(H, t))
  }

  // ---------------------------------------------------------------------
  // From trees to hierarchies
  // ---------------------------------------------------------------------

  /** The leaf sets of all subtrees of `T`, its own included. */
  ghost function ClusterSets(T: Tree): set<set<Leaf>>
  {
    match T
    case LeafNode(x) => {{x}}
    case Inner(ch) => {Leaves(T)} + set i, C | 0 <= i < |ch| && C in ClusterSets(ch[i]) :: C
  }

  /** The clusters of a phylogenetic tree lie inside its leaf set, are
      non-empty and include that leaf set. */
  lemma {:induction false} ClustersWithin(T: Tree)
    requires Phylogenetic(T)
    ensures Leaves(T) in ClusterSets(T) && Leaves(T) != {}
    ensures forall C :: C in ClusterSets(T) ==> C != {} && C <= Leaves(T)
  {
    match T
    case LeafNode(x) =>
    case Inner(ch) =>
      forall i | 0 <= i < |ch|
        ensures Leaves(ch[i]) != {} && forall C :: C in ClusterSets(ch[i]) ==> C != {} && C <= Leaves(ch[i])
      {
        ClustersWithin(ch[i]);
      }
      var x := Pick(Leaves(ch[0]));
      assert x in Leaves(T);
  }

  /** The clusters of a phylogenetic tree form a hierarchy on its leaves. */
  lemma TreeHierarchy(T: Tree)
    requires Phylogenetic(T)
    ensures Hierarchy(ClusterSets(T), Leaves(T))
  {
    ClustersWithin(T);
    forall x | x in Leaves(T)
      ensures {x} in ClusterSets(T)
    {
      SingletonCluster(T, x);
    }
    forall C, D | C in ClusterSets(T) && D in ClusterSets(T)
      ensures C <= D || D <= C || C !! D
    {
      Nested(T, C, D);
    }
  }

  /** Every leaf of a tree is a cluster of its own. */
  lemma {:induction false} SingletonCluster(T: Tree, x: Leaf)
    requires x in Leaves(T)
    ensures {x} in ClusterSets(T)
  {
    match T
    case LeafNode(_) =>
    case Inner(ch) =>
      var i :| 0 <= i < |ch| && x in Leaves(ch[i]);
      SingletonCluster(ch[i], x);
      assert {x} in ClusterSets(ch[i]);
  }

  /** Two clusters of a phylogenetic tree are nested or disjoint: clusters
      of different children lie in disjoint leaf sets. */
  lemma {:induction false} Nested(T: Tree, C: set<Leaf>, D: set<Leaf>)
    requires Phylogenetic(T) && C in ClusterSets(T) && D in ClusterSets(T)
    ensures C <= D || D <= C || C !! D
  {
    ClustersWithin(T);
    match T
    case LeafNode(_) =>
    case Inner(ch) =>
      if C != Leaves(T) && D != Leaves(T) {
        var i :| 0 <= i < |ch| && C in ClusterSets(ch[i]);
        var j :| 0 <= j < |ch| && D in ClusterSets(ch[j]);
        if i == j {
          Nested(ch[i], C, D);
        } else {
          ClustersWithin(ch[i]);
          ClustersWithin(ch[j]);
          assert Leaves(ch[i]) !! Leaves(ch[j]) by {
            if i > j {
              assert Leaves(ch[j]) !! Leaves(ch[i]);
            }
          }
        }
      }
  }

  /** A proper subtree separating c from a and b gives a cluster holding a
      and b but not c; conversely such a cluster, when c is a leaf of the
      tree, comes from a proper subtree. */
  lemma {:induction false} SplitsClusters(T: Tree, t: Triple)
    requires Phylogenetic(T)
    ensures Splits(T, t) ==> HDisplays(ClusterSets(T), t)
    ensures HDisplays(ClusterSets(T), t) && t.c in Leaves(T) ==> Splits(T, t)
  {
    match T
    case LeafNode(x) =>
    case Inner(ch) =>
      if Splits(T, t) {
        var i :| 0 <= i < |ch| && (Clusters(ch[i], t) || Splits(ch[i], t));
        ClustersWithin(ch[i]);
        SplitsClusters(ch[i], t);
        if Clusters(ch[i], t) {
          assert Leaves(ch[i]) in ClusterSets(T);
        } else {
          var C :| C in ClusterSets(ch[i]) && t.a in C && t.b in C && t.c !in C;
          assert C in ClusterSets(T);
        }
      }
      if HDisplays(ClusterSets(T), t) && t.c in Leaves(T) {
        var C :| C in ClusterSets(T) && t.a in C && t.b in C && t.c !in C;
        assert C != Leaves(T);
        var i :| 0 <= i < |ch| && C in ClusterSets(ch[i]);
        ClustersWithin(ch[i]);
        SplitsClusters(ch[i], t);
        if t.c !in Leaves(ch[i]) {
          assert Clusters(ch[i], t);
        } else {
          assert Splits(ch[i], t);
        }
      }
  }

  /** A tree witnessing compatibility gives a hierarchy witnessing
      consistency. */
  lemma CompatibleConsistent(R: seq<Triple>, F: seq<Triple>, L: set<Leaf>)
    requires Over(F, L)
    ensures Compatible(R, F, L) ==> Consistent(R, F, L)
  {
    if Compatible(R, F, L) {
      var T :| TreeFor(T, R, F, L);
      var H := ClusterSets(T);
      TreeHierarchy(T);
      forall t | t in R
        ensures HDisplays(H, t)
      {
        SplitsClusters(T, t);
      }
      forall t | t in F
        ensures !HDisplays(H, t)
      {
        var i :| 0 <= i < |F| && F[i] == t;
        SplitsClusters(T, t);
      }
      assert HierarchyFor(H, R, F, L);
    }
  }

  // ---------------------------------------------------------------------
  // Restriction to a block
  // ---------------------------------------------------------------------

  /** The clusters of `H` cut down to `S`, empty ones dropped. */
  ghost function RestrictH(H: set<set<Leaf>>, S: set<Leaf>): set<set<Leaf>>
  {
    set C | C in H && C * S != {} :: C * S
  }

  /** A hierarchy cut down to a non-empty part of its leaves is a
      hierarchy on that part. */
  lemma RestrictHierarchy(H: set<set<Leaf>>, L: set<Leaf>, S: set<Leaf>)
    requires Hierarchy(H, L) && S <= L && S != {}
    ensures Hierarchy(RestrictH(H, S), S)
  {
    var H' := RestrictH(H, S);
    assert L * S == S;
    forall x | x in S
      ensures {x} in H'
    {
      assert {x} * S == {x};
    }
    forall C', D' | C' in H' && D' in H'
      ensures C' <= D' || D' <= C' || C' !! D'
    {
      var C :| C in H && C * S != {} && C' == C * S;
      var D :| D in H && D * S != {} && D' == D * S;
    }
  }

  /** Consistency survives restriction to a non-empty part of the leaves. */
  lemma RestrictConsistent(R: seq<Triple>, F: seq<Triple>, L: set<Leaf>, S: set<Leaf>)
    requires S <= L && S != {}
    ensures Consistent(R, F, L) ==> Consistent(Restriction(R, S), Restriction(F, S), S)
  {
    if Consistent(R, F, L) {
      var H :| HierarchyFor(H, R, F, L);
      var H' := RestrictH(H, S);
      RestrictHierarchy(H, L, S);
      forall t | t in Restriction(R, S)
        ensures HDisplays(H', t)
      {
        var C :| C in H && t.a in C && t.b in C && t.c !in C;
        assert C * S in H';
      }
      forall t | t in Restriction(F, S)
        ensures !HDisplays(H', t)
      {
        assert t in F && Within(t, S);
        RestrictedDisplays(H, S, t);
      }
      assert HierarchyFor(H', Restriction(R, S), Restriction(F, S), S);
    }
  }

  /** A cut-down cluster separating a triple inside `S` comes from a
      cluster separating it. */
  lemma RestrictedDisplays(H: set<set<Leaf>>, S: set<Leaf>, t: Triple)
    requires Within(t, S)
    ensures HDisplays(RestrictH(H, S), t) ==> HDisplays(H, t)
  {
    if HDisplays(RestrictH(H, S), t) {
      var C' :| C' in RestrictH(H, S) && t.a in C' && t.b in C' && t.c !in C';
      var C :| C in H && C * S != {} && C' == C * S;
      assert t.a in C && t.b in C && t.c !in C;
    }
  }

  // ---------------------------------------------------------------------
  // The maximal proper clusters
  // ---------------------------------------------------------------------

  /** `M` is a proper cluster of `H` that no other proper cluster contains. */
  ghost predicate Maximal(H: set<set<Leaf>>, L: set<Leaf>, M: set<Leaf>)
  {
    M in H && M != L && forall D :: D in H && D != L && M <= D ==> D == M
  }

  /** The maximal proper clusters: the leaf sets of the root's children. */
  ghost function Tops(H: set<set<Leaf>>, L: set<Leaf>): set<set<Leaf>>
  {
    set M | M in H && Maximal(H, L, M)
  }

  /** A largest member of a non-empty family of sets. */
  lemma {:induction false} Largest(S: set<set<Leaf>>) returns (M: set<Leaf>)
    requires S != {}
    ensures M in S && forall D :: D in S ==> |D| <= |M|
    decreases |S|
  {
    var X := Pick(S);
    if S == {X} {
      M := X;
    } else {
      var M' := Largest(S - {X});
      M := if |X| <= |M'| then M' else X;
    }
  }

  /** A subset at least as large as its superset is equal to it. */
  lemma SubsetSameSize(A: set<Leaf>, B: set<Leaf>)
    requires A <= B && |B| <= |A|
    ensures A == B
  {
    assert B == A + (B - A);
    assert |A + (B - A)| + |A * (B - A)| == |A| + |B - A|;
    assert A * (B - A) == {};
  }

  /** Every leaf lies in a maximal proper cluster when `L` has two or more
      leaves: a largest proper cluster holding it. */
  lemma TopOf(H: set<set<Leaf>>, L: set<Leaf>, x: Leaf) returns (M: set<Leaf>)
    requires Hierarchy(H, L) && |L| >= 2 && x in L
    ensures M in Tops(H, L) && x in M
  {
    var cands := set C | C in H && C != L && x in C;
    assert {x} != L by {
      assert |L - {x}| >= 1;
      var y := Pick(L - {x});
    }
    assert {x} in cands;
    M := Largest(cands);
    forall D | D in H && D != L && M <= D
      ensures D == M
    {
      assert D in cands;
      SubsetSameSize(M, D);
    }
  }

  /** Every proper cluster lies inside a maximal one. */
  lemma UnderTop(H: set<set<Leaf>>, L: set<Leaf>, D: set<Leaf>) returns (M: set<Leaf>)
    requires Hierarchy(H, L) && |L| >= 2 && D in H && D != L
    ensures M in Tops(H, L) && D <= M
  {
    var x := Pick(D);
    M := TopOf(H, L, x);
    assert M <= D ==> D == M;
  }

  /** The maximal proper clusters partition `L` into two or more blocks. */
  lemma TopsPartition(H: set<set<Leaf>>, L: set<Leaf>)
    requires Hierarchy(H, L) && |L| >= 2
    ensures IsPartition(Tops(H, L), L) && |Tops(H, L)| >= 2
  {
    var Q := Tops(H, L);
    forall M1, M2 | M1 in Q && M2 in Q && M1 != M2
      ensures M1 !! M2
    {
      TopsDisjoint(H, L, M1, M2);
    }
    forall x | x in L
      ensures exists B :: B in Q && x in B
    {
      var M := TopOf(H, L, x);
    }
    var x := Pick(L);
    var Mx := TopOf(H, L, x);
    assert Mx <= L && Mx != L;
    var y := Pick(L - Mx);
    var My := TopOf(H, L, y);
    TwoMembers(Q, Mx, My, y);
  }

  /** A family holding two sets told apart by a leaf has two members. */
  lemma TwoMembers(Q: set<set<Leaf>>, A: set<Leaf>, B: set<Leaf>, y: Leaf)
    requires A in Q && B in Q && y in B && y !in A
    ensures |Q| >= 2
  {
    assert A != B;
    assert |{A, B}| == 2;
    SubsetCardSets({A, B}, Q);
  }

  /** Two different maximal proper clusters are disjoint. */
  lemma TopsDisjoint(H: set<set<Leaf>>, L: set<Leaf>, M1: set<Leaf>, M2: set<Leaf>)
    requires Hierarchy(H, L) && Maximal(H, L, M1) && Maximal(H, L, M2) && M1 != M2
    ensures M1 !! M2
  {
    assert M1 <= M2 ==> M2 == M1;
    assert M2 <= M1 ==> M1 == M2;
  }

  lemma SubsetCardSets(A: set<set<Leaf>>, B: set<set<Leaf>>)
    requires A <= B
    ensures |A| <= |B|
  {
    assert B == A + (B - A);
  }

  /** A triple whose a and b share a maximal cluster that misses c is
      displayed by the hierarchy. */
  lemma SeparatedDisplays(H: set<set<Leaf>>, L: set<Leaf>, t: Triple)
    requires Hierarchy(H, L) && |L| >= 2 && Within(t, L) && IsPartition(Tops(H, L), L)
    ensures Separated(Tops(H, L), L, t) ==> HDisplays(H, t)
  {
    var B := BlockOf(Tops(H, L), L, t.a);
    assert B in H;
  }

  /** Consistent triples on two or more leaves admit a partition into two
      or more blocks keeping the Aho edges of `R` inside blocks and
      separating no triple of `F`: the maximal proper clusters. */
  lemma ConsistentSplit(R: seq<Triple>, F: seq<Triple>, L: set<Leaf>) returns (Q: set<set<Leaf>>)
    requires Consistent(R, F, L) && Over(R, L) && Over(F, L) && |L| >= 2
    ensures Admissible(Q, L, R, F) && |Q| >= 2
  {
    var H :| HierarchyFor(H, R, F, L);
    Q := Tops(H, L);
    TopsPartition(H, L);
    forall e | e in AhoEdges(R)
      ensures exists B :: B in Q && EdgeIn(e, B)
    {
      var i :| 0 <= i < |R| && e == UEdge(R[i].a, R[i].b);
      assert R[i] in R;
      var C :| C in H && R[i].a in C && R[i].b in C && R[i].c !in C;
      assert C != L by {
        assert Within(R[i], L);
      }
      var M := UnderTop(H, L, C);
      assert EdgeIn(e, M);
    }
    forall i | 0 <= i < |F|
      ensures !Separated(Q, L, F[i])
    {
      assert F[i] in F;
      SeparatedDisplays(H, L, F[i]);
    }
  }

  /** A partition finer than one with two or more blocks has two or more
      blocks. */
  lemma FinerHasTwo(P: set<set<Leaf>>, Q: set<set<Leaf>>, L: set<Leaf>)
    requires IsPartition(P, L) && IsPartition(Q, L) && Refines(P, Q) && |Q| >= 2
    ensures |P| >= 2
  {
    var B1 := Pick(Q);
    assert |Q - {B1}| >= 1;
    var B2 := Pick(Q - {B1});
    var x := Pick(B1);
    var y := Pick(B2);
    var Px, Py := BlockOf(P, L, x), BlockOf(P, L, y);
    RefinedBlock(P, Q, L, Px, x);
    assert BlockOf(Q, L, x) == B1;
    assert y !in B1;
    TwoMembers(P, Px, Py, y);
  }

  /** BUILD's completeness step: on two or more leaves, consistent triples
      have an Aho graph with two or more components. */
  lemma AhoCompleteness(R: seq<Triple>, L: set<Leaf>, P: set<set<Leaf>>)
    requires Over(R, L) && |L| >= 2 && IsComponents(P, L, AhoEdges(R))
    ensures Consistent(R, [], L) ==> |P| >= 2
  {
    if Consistent(R, [], L) {
      var Q := ConsistentSplit(R, [], L);
      ComponentsRefine(P, L, AhoEdges(R), Q);
      FinerHasTwo(P, Q, L);
    }
  }

  /** MTT's completeness step: on two or more leaves, the finest admissible
      partition of consistent triples has two or more blocks. */
  lemma MttCompleteness(R: seq<Triple>, F: seq<Triple>, L: set<Leaf>, P: set<set<Leaf>>)
    requires Over(R, L) && Over(F, L) && |L| >= 2 && IsPartition(P, L)
    requires forall Q :: Admissible(Q, L, R, F) ==> Refines(P, Q)
    ensures Consistent(R, F, L) ==> |P| >= 2
  {
    if Consistent(R, F, L) {
      var Q := ConsistentSplit(R, F, L);
      FinerHasTwo(P, Q, L);
    }
  }

  /** Consistent triples name a non-empty leaf set. */
  lemma ConsistentNonEmpty(R: seq<Triple>, F: seq<Triple>, L: set<Leaf>)
    ensures Consistent(R, F, L) ==> L != {}
  {
    if Consistent(R, F, L) {
      var H :| HierarchyFor(H, R, F, L);
      assert L in H;
    }
  }

  /** A phylogenetic tree on `L` displaying all of `R` and none of `F`
      makes them consistent. */
  lemma TreeConsistent(T: Tree, R: seq<Triple>, F: seq<Triple>, L: set<Leaf>)
    requires Phylogenetic(T) && Leaves(T) == L && Over(F, L)
    requires forall t :: t in R ==> Displays(T, t)
    requires forall t :: t in F ==> !Displays(T, t)
    ensures Compatible(R, F, L) && Consistent(R, F, L)
  {
    assert TreeFor(T, R, F, L);
    CompatibleConsistent(R, F, L);
  }
}
