/** The auxiliary (Aho) graph of BUILD and its connected components
    (src/bmgedit/Build.py: `aho_graph`, `_triple_connect`, and the
    networkx `connected_components` that `_aho` and `mtt_partition` call). */
module AhoGraph {
  import opened Triples

  /** An unordered pair of leaves, stored with the smaller leaf first;
      `(x, x)` is a self-loop. */
  type Edge = (Leaf, Leaf)

  function UEdge(x: Leaf, y: Leaf): (e: Edge)
    ensures e.0 <= e.1
    ensures {e.0, e.1} == {x, y}
  {
    if x <= y then (x, y) else (y, x)
  }

  /** An undirected graph: a vertex set and the `weight` attribute of each edge. */
  datatype Graph = Graph(V: set<Leaf>, W: map<Edge, int>)

  predicate EdgeIn(e: Edge, B: set<Leaf>)
  {
    e.0 in B && e.1 in B
  }

  /** Every edge joins two vertices of the graph and is stored in normal form. */
  predicate WellFormed(G: Graph)
  {
    forall e :: e in G.W ==> e.0 <= e.1 && EdgeIn(e, G.V)
  }

  /** The leaves that `G.add_edge(a, b)` adds for the triples of `R`. */
  function PairLeaves(R: seq<Triple>): (s: set<Leaf>)
    ensures forall x :: x in s <==> exists i :: 0 <= i < |R| && (x == R[i].a || x == R[i].b)
  {
    if R == [] then {}
    else
      assert R == R[..|R| - 1] + [R[|R| - 1]];
      PairLeaves(R[..|R| - 1]) + {R[|R| - 1].a, R[|R| - 1].b}
  }

  /** The edge set of the Aho graph: one edge {a,b} per triple ab|c. */
  function AhoEdges(R: seq<Triple>): set<Edge>
  {
    set i | 0 <= i < |R| :: UEdge(R[i].a, R[i].b)
  }

  /** What one triple adds to the weight of its edge: nothing when unweighted,
      its entry in `tripleWeights` when that dict is non-empty, else 1. */
  function TripleWeight(t: Triple, weighted: bool, tripleWeights: map<Triple, int>): int
    requires weighted && |tripleWeights| > 0 ==> t in tripleWeights
  {
    if !weighted then 0
    else if |tripleWeights| > 0 then tripleWeights[t]
    else 1
  }

  predicate WeightsCover(R: seq<Triple>, weighted: bool, tripleWeights: map<Triple, int>)
  {
    weighted && |tripleWeights| > 0 ==> forall i :: 0 <= i < |R| ==> R[i] in tripleWeights
  }

  /** The weight of edge `e`: the sum, over the triples ab|x and ba|x of `R`
      with {a,b} = e, of what each contributes. */
  function EdgeWeight(R: seq<Triple>, e: Edge, weighted: bool, tripleWeights: map<Triple, int>): int
    requires WeightsCover(R, weighted, tripleWeights)
  {
    if R == [] then 0
    else
      var t := R[|R| - 1];
      EdgeWeight(R[..|R| - 1], e, weighted, tripleWeights)
        + (if UEdge(t.a, t.b) == e then TripleWeight(t, weighted, tripleWeights) else 0)
  }

  /** One step of `aho_graph`: add the leaves a and b of triple ab|c, create
      the edge {a,b} with weight 0 if it is missing and add the triple's
      contribution to its weight. */
  function AddTriple(G: Graph, t: Triple, weighted: bool, tripleWeights: map<Triple, int>): Graph
    requires weighted && |tripleWeights| > 0 ==> t in tripleWeights
  {
    var e := UEdge(t.a, t.b);
    var old_w := if e in G.W then G.W[e] else 0;
    Graph(G.V + {t.a, t.b}, G.W[e := old_w + TripleWeight(t, weighted, tripleWeights)])
  }

  /** The graph after the first |R| triples have been added to the leaves `L`. */
  function AhoFold(R: seq<Triple>, L: set<Leaf>, weighted: bool, tripleWeights: map<Triple, int>): Graph
    requires WeightsCover(R, weighted, tripleWeights)
  {
    if R == [] then Graph(L, map[])
    else AddTriple(AhoFold(R[..|R| - 1], L, weighted, tripleWeights), R[|R| - 1], weighted, tripleWeights)
  }

  /** `aho_graph(R, L, weighted, triple_weights)`: add the leaves, then each triple. */
  method AhoGraphOf(R: seq<Triple>, L: set<Leaf>, weighted: bool, tripleWeights: map<Triple, int>)
    returns (G: Graph)
    requires WeightsCover(R, weighted, tripleWeights)
    ensures G == AhoFold(R, L, weighted, tripleWeights)
    ensures WellFormed(G)
    ensures G.V == L + PairLeaves(R)
    ensures G.W.Keys == AhoEdges(R)
    ensures forall e :: e in G.W ==> G.W[e] == EdgeWeight(R, e, weighted, tripleWeights)
  {
    G := Graph(L, map[]);
    for i := 0 to |R|
      invariant G == AhoFold(R[..i], L, weighted, tripleWeights)
    {
      assert R[..i + 1][..i] == R[..i];
      G := AddTriple(G, R[i], weighted, tripleWeights);
    }
    assert R[..|R|] == R;
    AhoFoldShape(R, L, weighted, tripleWeights);
  }

  /** The Aho graph has the leaves of `L` and of the triples' pairs, one edge
      {a,b} per triple ab|c and, on each edge, the summed contributions of the
      triples that induce it. */
  lemma AhoFoldShape(R: seq<Triple>, L: set<Leaf>, weighted: bool, tripleWeights: map<Triple, int>)
    requires WeightsCover(R, weighted, tripleWeights)
    ensures WellFormed(AhoFold(R, L, weighted, tripleWeights))
    ensures AhoFold(R, L, weighted, tripleWeights).V == L + PairLeaves(R)
    ensures AhoFold(R, L, weighted, tripleWeights).W.Keys == AhoEdges(R)
    ensures forall e :: e in AhoFold(R, L, weighted, tripleWeights).W ==>
      AhoFold(R, L, weighted, tripleWeights).W[e] == EdgeWeight(R, e, weighted, tripleWeights)
  {
    AhoFoldVertices(R, L, weighted, tripleWeights);
    AhoFoldEdges(R, L, weighted, tripleWeights);
    AhoFoldWeights(R, L, weighted, tripleWeights);
    AhoFoldWellFormed(R, L, weighted, tripleWeights);
  }

  lemma {:induction false} AhoFoldVertices(R: seq<Triple>, L: set<Leaf>, weighted: bool, tripleWeights: map<Triple, int>)
    requires WeightsCover(R, weighted, tripleWeights)
    ensures AhoFold(R, L, weighted, tripleWeights).V == L + PairLeaves(R)
  {
    if R != [] {
      AhoFoldVertices(R[..|R| - 1], L, weighted, tripleWeights);
    }
  }

  lemma {:induction false} AhoFoldEdges(R: seq<Triple>, L: set<Leaf>, weighted: bool, tripleWeights: map<Triple, int>)
    requires WeightsCover(R, weighted, tripleWeights)
    ensures AhoFold(R, L, weighted, tripleWeights).W.Keys == AhoEdges(R)
  {
    if R != [] {
      var front, t := R[..|R| - 1], R[|R| - 1];
      assert R == front + [t];
      AhoFoldEdges(front, L, weighted, tripleWeights);
      AhoEdgesSnoc(front, t);
    }
  }

  lemma {:induction false} AhoFoldWellFormed(R: seq<Triple>, L: set<Leaf>, weighted: bool, tripleWeights: map<Triple, int>)
    requires WeightsCover(R, weighted, tripleWeights)
    ensures WellFormed(AhoFold(R, L, weighted, tripleWeights))
  {
    if R != [] {
      var front := R[..|R| - 1];
      AhoFoldWellFormed(front, L, weighted, tripleWeights);
      var G := AhoFold(front, L, weighted, tripleWeights);
      var t := R[|R| - 1];
      var H := AddTriple(G, t, weighted, tripleWeights);
      assert forall e :: e in G.W ==> EdgeIn(e, H.V);
    }
  }

  lemma {:induction false} AhoFoldWeights(R: seq<Triple>, L: set<Leaf>, weighted: bool, tripleWeights: map<Triple, int>)
    requires WeightsCover(R, weighted, tripleWeights)
    ensures forall e :: e in AhoFold(R, L, weighted, tripleWeights).W ==>
      AhoFold(R, L, weighted, tripleWeights).W[e] == EdgeWeight(R, e, weighted, tripleWeights)
  {
    if R != [] {
      var front, t := R[..|R| - 1], R[|R| - 1];
      AhoFoldWeights(front, L, weighted, tripleWeights);
      AhoFoldEdges(front, L, weighted, tripleWeights);
      var G := AhoFold(front, L, weighted, tripleWeights);
      var e := UEdge(t.a, t.b);
      if e !in G.W {
        EdgeWeightOffEdge(front, e, weighted, tripleWeights);
      }
    }
  }

  lemma AhoEdgesSnoc(R: seq<Triple>, t: Triple)
    ensures AhoEdges(R + [t]) == AhoEdges(R) + {UEdge(t.a, t.b)}
  {
    var R' := R + [t];
    forall f | f in AhoEdges(R') ensures f in AhoEdges(R) + {UEdge(t.a, t.b)} {
      var j :| 0 <= j < |R'| && f == UEdge(R'[j].a, R'[j].b);
      if j < |R| { assert R'[j] == R[j]; }
    }
    forall f | f in AhoEdges(R) ensures f in AhoEdges(R') {
      var j :| 0 <= j < |R| && f == UEdge(R[j].a, R[j].b);
      assert R[j] == R'[j];
    }
    assert R'[|R|] == t;
  }

  /** A pair that no triple of `R` joins has weight 0. */
  lemma {:induction false} EdgeWeightOffEdge(R: seq<Triple>, e: Edge, weighted: bool, tripleWeights: map<Triple, int>)
    requires WeightsCover(R, weighted, tripleWeights)
    requires e !in AhoEdges(R)
    ensures EdgeWeight(R, e, weighted, tripleWeights) == 0
  {
    if R != [] {
      var front := R[..|R| - 1];
      assert AhoEdges(front) <= AhoEdges(R) by {
        forall f | f in AhoEdges(front) ensures f in AhoEdges(R) {
          var j :| 0 <= j < |front| && f == UEdge(front[j].a, front[j].b);
          assert front[j] == R[j];
        }
      }
      EdgeWeightOffEdge(front, e, weighted, tripleWeights);
      assert UEdge(R[|R| - 1].a, R[|R| - 1].b) in AhoEdges(R);
    }
  }

  /** The positions of the triples of `R` that induce edge `e`. */
  function Inducing(R: seq<Triple>, e: Edge): set<nat>
  {
    set i: nat | i < |R| && UEdge(R[i].a, R[i].b) == e
  }

  /** Weighted without explicit weights, an edge weighs the number of triples
      ab|x or ba|x that induce it; unweighted, every edge weighs 0. */
  lemma {:induction false} EdgeWeightCounts(R: seq<Triple>, e: Edge, weighted: bool)
    ensures weighted ==> EdgeWeight(R, e, weighted, map[]) == |Inducing(R, e)|
    ensures !weighted ==> EdgeWeight(R, e, weighted, map[]) == 0
  {
    if R != [] {
      var n := |R| - 1;
      EdgeWeightCounts(R[..n], e, weighted);
      InducingSnoc(R, e);
    }
  }

  /** The last triple adds its own position to the inducing positions of
      the others iff it induces `e`. */
  lemma InducingSnoc(R: seq<Triple>, e: Edge)
    requires R != []
    ensures |Inducing(R, e)| == |Inducing(R[..|R| - 1], e)| + (if UEdge(R[|R| - 1].a, R[|R| - 1].b) == e then 1 else 0)
  {
    var n := |R| - 1;
    var front := R[..n];
    var A, B := Inducing(R, e), Inducing(front, e);
    assert n !in B;
    forall i | i in B ensures i in A {
      assert front[i] == R[i];
    }
    forall i | i in A && i != n ensures i in B {
      assert front[i] == R[i];
    }
    if UEdge(R[n].a, R[n].b) == e {
      assert A == B + {n};
    } else {
      assert A == B;
    }
  }

  /** `_triple_connect(G, t)`: add the edges {t0,t1} and {t0,t2}. An edge that
      already exists keeps its weight; a new one has no weight attribute, which
      the graph library's readers take as 1. */
  function TripleConnect(G: Graph, t: Triple): (H: Graph)
    ensures H.V == G.V + {t.a, t.b, t.c}
    ensures H.W.Keys == G.W.Keys + {UEdge(t.a, t.b), UEdge(t.a, t.c)}
    ensures forall e :: e in G.W ==> H.W[e] == G.W[e]
    ensures forall e :: e in H.W && e !in G.W ==> H.W[e] == 1
  {
    var e1, e2 := UEdge(t.a, t.b), UEdge(t.a, t.c);
    var W1 := if e1 in G.W then G.W else G.W[e1 := 1];
    var W2 := if e2 in W1 then W1 else W1[e2 := 1];
    Graph(G.V + {t.a, t.b, t.c}, W2)
  }

  // ---------------------------------------------------------------------
  // Partitions and connected components
  // ---------------------------------------------------------------------

  /** `P` is a partition of `U`: non-empty, pairwise disjoint blocks covering `U`. */
  ghost predicate IsPartition(P: set<set<Leaf>>, U: set<Leaf>)
  {
    && {} !in P && (forall B :: B in P ==> B <= U)
    && (forall B1, B2 :: B1 in P && B2 in P && B1 != B2 ==> B1 !! B2)
    && (forall x :: x in U ==> exists B :: B in P && x in B)
  }

  /** No edge of `E` leaves its block. */
  ghost predicate EdgesInsideBlocks(P: set<set<Leaf>>, E: set<Edge>)
  {
    forall e :: e in E ==> exists B :: B in P && EdgeIn(e, B)
  }

  /** Some edge inside `B` has one end in `S` and the other outside it. */
  ghost predicate Crosses(E: set<Edge>, S: set<Leaf>, B: set<Leaf>)
  {
    exists e :: e in E && EdgeIn(e, B) && ((e.0 in S) != (e.1 in S))
  }

  /** `B` is connected by the edges of `E` that lie inside it: every cut of `B`
      into two non-empty sides is crossed by one of them. */
  ghost predicate CutConnected(B: set<Leaf>, E: set<Edge>)
  {
    forall S :: S <= B && S != {} && S != B ==> Crosses(E, S, B)
  }

  /** The graph on `V` with edges `E` is connected. */
  ghost predicate Connected(V: set<Leaf>, E: set<Edge>)
  {
    CutConnected(V, E)
  }

  /** `P` is the set of connected components of (V, E). */
  ghost predicate IsComponents(P: set<set<Leaf>>, V: set<Leaf>, E: set<Edge>)
  {
    && IsPartition(P, V)
    && EdgesInsideBlocks(P, E)
    && (forall B :: B in P ==> CutConnected(B, E))
  }

  lemma CrossesMono(E: set<Edge>, E': set<Edge>, S: set<Leaf>, B: set<Leaf>)
    requires E <= E' && Crosses(E, S, B)
    ensures Crosses(E', S, B)
  {
  }

  lemma CutConnectedMono(B: set<Leaf>, E: set<Edge>, E': set<Edge>)
    requires E <= E' && CutConnected(B, E)
    ensures CutConnected(B, E')
  {
    forall S | S <= B && S != {} && S != B ensures Crosses(E', S, B) {
      CrossesMono(E, E', S, B);
    }
  }

  /** Joining two connected blocks by an edge between them gives a connected block. */
  lemma MergeConnected(Ba: set<Leaf>, Bb: set<Leaf>, E: set<Edge>, e: Edge)
    requires Ba !! Bb
    requires CutConnected(Ba, E) && CutConnected(Bb, E)
    requires e in E && ((e.0 in Ba && e.1 in Bb) || (e.1 in Ba && e.0 in Bb))
    ensures CutConnected(Ba + Bb, E)
  {
    var B := Ba + Bb;
    forall S | S <= B && S != {} && S != B ensures Crosses(E, S, B) {
      var Sa, Sb := S * Ba, S * Bb;
      assert S == Sa + Sb;
      if Sa != {} && Sa != Ba {
        assert Crosses(E, Sa, Ba);
        var f :| f in E && EdgeIn(f, Ba) && ((f.0 in Sa) != (f.1 in Sa));
        assert EdgeIn(f, B) && ((f.0 in S) != (f.1 in S));
      } else if Sb != {} && Sb != Bb {
        assert Crosses(E, Sb, Bb);
        var f :| f in E && EdgeIn(f, Bb) && ((f.0 in Sb) != (f.1 in Sb));
        assert EdgeIn(f, B) && ((f.0 in S) != (f.1 in S));
      } else {
        assert (Sa == Ba && Sb == {}) || (Sa == {} && Sb == Bb);
        assert EdgeIn(e, B) && ((e.0 in S) != (e.1 in S));
      }
    }
  }

  /** The partition after `merge`: the blocks of `a` and `b` become one. */
  lemma MergeIsPartition(P: set<set<Leaf>>, U: set<Leaf>, Ba: set<Leaf>, Bb: set<Leaf>)
    requires IsPartition(P, U) && Ba in P && Bb in P && Ba != Bb
    ensures IsPartition(P - {Ba, Bb} + {Ba + Bb}, U)
    ensures |P - {Ba, Bb} + {Ba + Bb}| == |P| - 1
  {
    var Q := P - {Ba, Bb};
    var P' := Q + {Ba + Bb};
    assert forall B :: B in Q ==> B !! Ba && B !! Bb;
    forall B1, B2 | B1 in P' && B2 in P' && B1 != B2 ensures B1 !! B2 {
      if B1 != Ba + Bb && B2 != Ba + Bb {
        assert B1 in P && B2 in P;
      }
    }
    forall x | x in U ensures exists B :: B in P' && x in B {
      var B :| B in P && x in B;
      if B == Ba || B == Bb { assert x in Ba + Bb; } else { assert B in Q; }
    }
    var x := Pick(Ba);
    assert x in Ba + Bb;
    assert Ba + Bb !in Q;
    assert |Q| == |P| - 2;
  }

  /** Some element of a non-empty set. */
  lemma Pick<T>(B: set<T>) returns (x: T)
    requires B != {}
    ensures x in B
  {
    x :| x in B;
  }

  /** The block of a partition that holds `x`. */
  function BlockOf(P: set<set<Leaf>>, U: set<Leaf>, x: Leaf): (B: set<Leaf>)
    requires IsPartition(P, U) && x in U
    ensures B in P && x in B
    ensures forall B' :: B' in P && x in B' ==> B' == B
  {
    var B :| B in P && x in B; B
  }

  /** Merge the blocks holding `x` and `y` (nothing changes if they share one). */
  function MergeBlocks(P: set<set<Leaf>>, U: set<Leaf>, x: Leaf, y: Leaf): (P': set<set<Leaf>>)
    requires IsPartition(P, U) && x in U && y in U
  {
    var Bx, By := BlockOf(P, U, x), BlockOf(P, U, y);
    if Bx == By then P else P - {Bx, By} + {Bx + By}
  }

  /** Merging along a new edge turns the components of (U, E) into the
      components of (U, E + {e}); the block count drops by one exactly when
      the edge joined two blocks. */
  lemma MergeKeepsComponents(P: set<set<Leaf>>, U: set<Leaf>, E: set<Edge>, e: Edge)
    requires IsComponents(P, U, E) && EdgeIn(e, U)
    ensures IsComponents(MergeBlocks(P, U, e.0, e.1), U, E + {e})
    ensures BlockOf(P, U, e.0) != BlockOf(P, U, e.1) ==> |MergeBlocks(P, U, e.0, e.1)| == |P| - 1
    ensures BlockOf(P, U, e.0) == BlockOf(P, U, e.1) ==> MergeBlocks(P, U, e.0, e.1) == P
  {
    var E' := E + {e};
    var Ba, Bb := BlockOf(P, U, e.0), BlockOf(P, U, e.1);
    var P' := MergeBlocks(P, U, e.0, e.1);
    forall B | B in P ensures CutConnected(B, E') {
      CutConnectedMono(B, E, E');
    }
    if Ba != Bb {
      MergeConnected(Ba, Bb, E', e);
      MergeIsPartition(P, U, Ba, Bb);
    }
    forall f | f in E' ensures exists B :: B in P' && EdgeIn(f, B) {
      if f == e {
        assert EdgeIn(f, BlockOf(P', U, e.0));
      } else {
        var B :| B in P && EdgeIn(f, B);
        if Ba != Bb && (B == Ba || B == Bb) { assert EdgeIn(f, Ba + Bb); } else { assert B in P'; }
      }
    }
  }

  /** A one-vertex block has no cut. */
  lemma SingletonHasNoCut(v: Leaf)
    ensures forall S :: S <= {v} && S != {} ==> S == {v}
  {
    forall S | S <= {v} && S != {} ensures S == {v} {
      var y :| y in S;
      assert y == v;
    }
  }

  /** Before any edge is looked at, every vertex is its own component. */
  lemma SingletonComponents(V: set<Leaf>)
    ensures IsComponents(set v | v in V :: {v}, V, {})
  {
    var P := set v | v in V :: {v};
    forall B | B in P ensures B != {} && B <= V && CutConnected(B, {}) {
      var v :| v in V && B == {v};
      SingletonHasNoCut(v);
    }
    forall B1, B2 | B1 in P && B2 in P && B1 != B2 ensures B1 !! B2 {
      var v1 :| v1 in V && B1 == {v1};
      var v2 :| v2 in V && B2 == {v2};
    }
    forall x | x in V ensures exists B :: B in P && x in B {
      assert {x} in P;
    }
    assert IsPartition(P, V);
  }

  /** The singleton blocks `{v}` of the vertices. */
  method Singletons(V: set<Leaf>) returns (P: set<set<Leaf>>)
    ensures IsComponents(P, V, {})
  {
    P := set v | v in V :: {v};
    SingletonComponents(V);
  }

  /** One round of the component loop: the edge `e` taken from `todo` is
      merged into the components of the edges already done. */
  method ComponentStep(P: set<set<Leaf>>, V: set<Leaf>, K: set<Edge>, todo: set<Edge>, e: Edge)
    returns (P': set<set<Leaf>>)
    requires todo <= K && e in todo && forall f :: f in K ==> EdgeIn(f, V)
    requires IsComponents(P, V, K - todo)
    ensures IsComponents(P', V, K - (todo - {e}))
  {
    MergeKeepsComponents(P, V, K - todo, e);
    assert K - (todo - {e}) == (K - todo) + {e};
    P' := MergeBlocks(P, V, e.0, e.1);
  }

  /** networkx `connected_components`: start from singletons and merge the
      blocks at the two ends of every edge. */
  method ConnectedComponents(G: Graph) returns (P: set<set<Leaf>>)
    requires WellFormed(G)
    ensures IsComponents(P, G.V, G.W.Keys)
  {
    P := Singletons(G.V);
    var todo := G.W.Keys;
    assert G.W.Keys - todo == {};
    while todo != {}
      invariant todo <= G.W.Keys
      invariant IsComponents(P, G.V, G.W.Keys - todo)
      decreases todo
    {
      ghost var w := Pick(todo);
      var e :| e in todo;
      P := ComponentStep(P, G.V, G.W.Keys, todo, e);
      todo := todo - {e};
    }
    assert G.W.Keys - todo == G.W.Keys;
  }
}
