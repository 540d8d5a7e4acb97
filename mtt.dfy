/** The MTT partition step (src/bmgedit/Build.py, `mtt_partition`): start from
    the components of the Aho graph and keep merging blocks while some
    forbidden triple ab|c has a and b in one block and c in another. */
module Mtt {
  import opened Triples
  import opened AhoGraph

  /** `u` is one of the three leaves of `t`. */
  predicate HasLeaf(t: Triple, u: Leaf)
  {
    t.a == u || t.b == u || t.c == u
  }

  /** Some leaf of `t` lies in `B`. */
  predicate TouchesBlock(t: Triple, B: set<Leaf>)
  {
    t.a in B || t.b in B || t.c in B
  }

  /** asymmetree `Partition.separated_xy_z(x, y, z)`: x and y share a block
      and z lies outside it. */
  predicate Separated(P: set<set<Leaf>>, U: set<Leaf>, t: Triple)
    requires IsPartition(P, U) && Within(t, U)
  {
    var B := BlockOf(P, U, t.a);
    t.b in B && t.c !in B
  }

  /** Every block of `P` lies inside a block of `Q` (`P` is finer). */
  ghost predicate Refines(P: set<set<Leaf>>, Q: set<set<Leaf>>)
  {
    forall B :: B in P ==> exists C :: C in Q && B <= C
  }

  /** A partition of `L` that keeps every edge of the Aho graph of `R` inside
      a block and separates no forbidden triple of `F`. */
  ghost predicate Admissible(Q: set<set<Leaf>>, L: set<Leaf>, R: seq<Triple>, F: seq<Triple>)
  {
    && IsPartition(Q, L)
    && Over(F, L)
    && EdgesInsideBlocks(Q, AhoEdges(R))
    && (forall i :: 0 <= i < |F| ==> !Separated(Q, L, F[i]))
  }

  /** `e` is one of the two edges `_triple_connect` adds for a triple of `F`. */
  ghost predicate FromForbidden(e: Edge, F: seq<Triple>)
  {
    exists t :: t in F && (e == UEdge(t.a, t.b) || e == UEdge(t.a, t.c))
  }

  /** The auxiliary graph of `mtt_partition`: the unweighted Aho graph of `R`
      on the leaves `L` (every edge weight 0) plus edges added by
      `_triple_connect` for forbidden triples (no weight attribute, read as 1). */
  ghost predicate AuxGraph(G: Graph, L: set<Leaf>, R: seq<Triple>, F: seq<Triple>)
  {
    && G.V == L
    && AhoEdges(R) <= G.W.Keys
    && (forall e :: e in G.W ==> e in AhoEdges(R) || FromForbidden(e, F))
    && (forall e :: e in G.W ==> G.W[e] == if e in AhoEdges(R) then 0 else 1)
  }

  /** The smaller of the two blocks that `Partition.merge(x, y)` joins, which
      it returns; on equal sizes the block of `x`. */
  function SmallerBlock(P: set<set<Leaf>>, U: set<Leaf>, x: Leaf, y: Leaf): (B: set<Leaf>)
    requires IsPartition(P, U) && x in U && y in U
    ensures B == BlockOf(P, U, x) || B == BlockOf(P, U, y)
    ensures |B| <= |BlockOf(P, U, x)| && |B| <= |BlockOf(P, U, y)|
  {
    var Bx, By := BlockOf(P, U, x), BlockOf(P, U, y);
    if |By| < |Bx| then By else Bx
  }

  // ---------------------------------------------------------------------
  // Facts about merging
  // ---------------------------------------------------------------------

  lemma MergeBlocksIsPartition(P: set<set<Leaf>>, U: set<Leaf>, x: Leaf, y: Leaf)
    requires IsPartition(P, U) && x in U && y in U
    ensures IsPartition(MergeBlocks(P, U, x, y), U)
    ensures BlockOf(P, U, x) != BlockOf(P, U, y) ==> |MergeBlocks(P, U, x, y)| == |P| - 1
  {
    if BlockOf(P, U, x) != BlockOf(P, U, y) {
      MergeIsPartition(P, U, BlockOf(P, U, x), BlockOf(P, U, y));
    }
  }

  /** After merging the blocks of x and y, a leaf's block is the union of the
      two if it was one of them, and its old block otherwise. */
  lemma MergedBlockOf(P: set<set<Leaf>>, U: set<Leaf>, x: Leaf, y: Leaf, z: Leaf)
    requires IsPartition(P, U) && x in U && y in U && z in U
    ensures IsPartition(MergeBlocks(P, U, x, y), U)
    ensures BlockOf(MergeBlocks(P, U, x, y), U, z) ==
      if BlockOf(P, U, z) == BlockOf(P, U, x) || BlockOf(P, U, z) == BlockOf(P, U, y)
      then BlockOf(P, U, x) + BlockOf(P, U, y)
      else BlockOf(P, U, z)
  {
    MergeBlocksIsPartition(P, U, x, y);
    var Bx, By, Bz := BlockOf(P, U, x), BlockOf(P, U, y), BlockOf(P, U, z);
    var P' := MergeBlocks(P, U, x, y);
    if Bx == By {
      assert Bx + By == Bx;
    } else if Bz == Bx || Bz == By {
      assert Bx + By in P' && z in Bx + By;
    } else {
      assert Bz in P';
    }
  }

  lemma MergeBlocksSymmetric(P: set<set<Leaf>>, U: set<Leaf>, x: Leaf, y: Leaf)
    requires IsPartition(P, U) && x in U && y in U
    ensures MergeBlocks(P, U, x, y) == MergeBlocks(P, U, y, x)
  {
    var Bx, By := BlockOf(P, U, x), BlockOf(P, U, y);
    assert {Bx, By} == {By, Bx};
    assert Bx + By == By + Bx;
  }

  /** A triple whose separation status changes when two blocks merge has a
      leaf in the smaller of them: that is why `mtt_partition` only rescans
      the triples of the leaves that `merge` returns. */
  lemma {:induction false} StatusChange(P: set<set<Leaf>>, U: set<Leaf>, x: Leaf, y: Leaf, t: Triple)
    requires IsPartition(P, U) && x in U && y in U && Within(t, U)
    ensures IsPartition(MergeBlocks(P, U, x, y), U)
    ensures Separated(MergeBlocks(P, U, x, y), U, t) != Separated(P, U, t) ==>
      TouchesBlock(t, SmallerBlock(P, U, x, y))
  {
    MergedBlockOf(P, U, x, y, t.a);
    var Bx, By := BlockOf(P, U, x), BlockOf(P, U, y);
    var Ba := BlockOf(P, U, t.a);
    var Ba' := BlockOf(MergeBlocks(P, U, x, y), U, t.a);
    var Sm := SmallerBlock(P, U, x, y);
    if Bx != By && (Ba == Bx || Ba == By) && Ba != Sm {
      var Other := if Ba == Bx then By else Bx;
      assert Sm == Other;
      assert Ba' == Ba + Sm;
    }
  }

  /** A block of a finer partition lies in the block of the coarser one that
      holds any of its leaves. */
  lemma RefinedBlock(P: set<set<Leaf>>, Q: set<set<Leaf>>, U: set<Leaf>, B: set<Leaf>, x: Leaf)
    requires IsPartition(P, U) && IsPartition(Q, U) && Refines(P, Q)
    requires B in P && x in B
    ensures x in U && B <= BlockOf(Q, U, x)
  {
    var C :| C in Q && B <= C;
  }

  /** Merging the blocks of a and c for a triple ab|c that `P` separates but
      `Q` does not keeps `P` finer than `Q`: every merge of the algorithm is
      forced. */
  lemma MergeRefines(P: set<set<Leaf>>, Q: set<set<Leaf>>, U: set<Leaf>, t: Triple)
    requires IsPartition(P, U) && IsPartition(Q, U) && Within(t, U)
    requires Refines(P, Q) && Separated(P, U, t) && !Separated(Q, U, t)
    ensures IsPartition(MergeBlocks(P, U, t.a, t.c), U)
    ensures Refines(MergeBlocks(P, U, t.a, t.c), Q)
  {
    MergeBlocksIsPartition(P, U, t.a, t.c);
    var Ba, Bc := BlockOf(P, U, t.a), BlockOf(P, U, t.c);
    var C := BlockOf(Q, U, t.a);
    RefinedBlock(P, Q, U, Ba, t.a);
    assert t.c in C;
    RefinedBlock(P, Q, U, Bc, t.c);
    assert BlockOf(Q, U, t.c) == C;
    var P' := MergeBlocks(P, U, t.a, t.c);
    forall B | B in P' ensures exists C' :: C' in Q && B <= C' {
      if B == Ba + Bc {
        assert B <= C;
      } else {
        assert B in P;
      }
    }
  }

  /** No edge inside a block `B` crosses the border of a block of a partition
      whose blocks contain every edge. */
  lemma NoCrossing(B: set<Leaf>, C: set<Leaf>, E: set<Edge>, Q: set<set<Leaf>>, U: set<Leaf>)
    requires IsPartition(Q, U) && C in Q && EdgesInsideBlocks(Q, E)
    ensures !Crosses(E, B * C, B)
  {
    forall e | e in E && EdgeIn(e, B) ensures (e.0 in B * C) == (e.1 in B * C) {
      var D :| D in Q && EdgeIn(e, D);
      if D != C {
        assert D !! C;
      }
    }
  }

  /** The connected components are finer than any partition keeping every
      edge inside a block. */
  lemma ComponentsRefine(P: set<set<Leaf>>, U: set<Leaf>, E: set<Edge>, Q: set<set<Leaf>>)
    requires IsComponents(P, U, E) && IsPartition(Q, U) && EdgesInsideBlocks(Q, E)
    ensures Refines(P, Q)
  {
    forall B | B in P ensures exists C :: C in Q && B <= C {
      var x := Pick(B);
      var C := BlockOf(Q, U, x);
      NoCrossing(B, C, E, Q, U);
      assert x in B * C;
      assert B * C == B;
    }
  }

  /** With a single block nothing is separated. */
  lemma OneBlockSeparatesNothing(P: set<set<Leaf>>, U: set<Leaf>, t: Triple)
    requires IsPartition(P, U) && |P| == 1 && Within(t, U)
    ensures !Separated(P, U, t)
  {
    var B := BlockOf(P, U, t.a);
    assert P - {B} == {} by {
      assert |P - {B}| == 0;
    }
    var Bc := BlockOf(P, U, t.c);
    assert Bc !in P - {B};
    assert Bc == B;
  }

  /** An edge inside a block keeps the partition the components. */
  lemma AddInsideEdge(P: set<set<Leaf>>, U: set<Leaf>, E: set<Edge>, e: Edge, B: set<Leaf>)
    requires IsComponents(P, U, E) && B in P && EdgeIn(e, B)
    ensures IsComponents(P, U, E + {e})
  {
    assert BlockOf(P, U, e.0) == B && BlockOf(P, U, e.1) == B;
    MergeKeepsComponents(P, U, E, e);
  }

  /** Connecting the popped triple ab|c: the blocks of a and c merge, and
      the new edges {a,b} and {a,c} keep the partition the components. */
  lemma ConnectSeparated(P: set<set<Leaf>>, U: set<Leaf>, E: set<Edge>, t: Triple)
    requires IsComponents(P, U, E) && Within(t, U) && Separated(P, U, t)
    ensures IsPartition(MergeBlocks(P, U, t.a, t.c), U)
    ensures IsComponents(MergeBlocks(P, U, t.a, t.c), U, E + {UEdge(t.a, t.b), UEdge(t.a, t.c)})
    ensures |MergeBlocks(P, U, t.a, t.c)| == |P| - 1
  {
    var e1, e2 := UEdge(t.a, t.c), UEdge(t.a, t.b);
    var P' := MergeBlocks(P, U, t.a, t.c);
    MergeAlongEdge(P, U, E, t.a, t.c);
    MergedBlockOf(P, U, t.a, t.c, t.a);
    MergedBlockOf(P, U, t.a, t.c, t.b);
    AddInsideEdge(P', U, E + {e1}, e2, BlockOf(P, U, t.a) + BlockOf(P, U, t.c));
    assert E + {e1} + {e2} == E + {e2, e1};
  }

  /** Merging the blocks of x and y along the new edge {x,y}. */
  lemma MergeAlongEdge(P: set<set<Leaf>>, U: set<Leaf>, E: set<Edge>, x: Leaf, y: Leaf)
    requires IsComponents(P, U, E) && x in U && y in U && BlockOf(P, U, x) != BlockOf(P, U, y)
    ensures IsComponents(MergeBlocks(P, U, x, y), U, E + {UEdge(x, y)})
    ensures |MergeBlocks(P, U, x, y)| == |P| - 1
  {
    var e := UEdge(x, y);
    MergeBlocksSymmetric(P, U, x, y);
    MergeKeepsComponents(P, U, E, e);
    assert MergeBlocks(P, U, e.0, e.1) == MergeBlocks(P, U, x, y);
  }

  /** Connecting a triple whose three leaves already share a block leaves
      the components as they are. */
  lemma ConnectInside(P: set<set<Leaf>>, U: set<Leaf>, E: set<Edge>, t: Triple)
    requires IsComponents(P, U, E) && Within(t, U)
    requires t.b in BlockOf(P, U, t.a) && t.c in BlockOf(P, U, t.a)
    ensures IsComponents(P, U, E + {UEdge(t.a, t.b), UEdge(t.a, t.c)})
  {
    var B := BlockOf(P, U, t.a);
    var e1, e2 := UEdge(t.a, t.b), UEdge(t.a, t.c);
    AddInsideEdge(P, U, E, e1, B);
    AddInsideEdge(P, U, E + {e1}, e2, B);
    assert E + {e1} + {e2} == E + {e1, e2};
  }

  /** `_triple_connect` for a forbidden triple keeps the shape of the
      auxiliary graph. */
  lemma ConnectKeepsAux(G: Graph, L: set<Leaf>, R: seq<Triple>, F: seq<Triple>, t: Triple)
    requires AuxGraph(G, L, R, F) && t in F && Within(t, L)
    ensures AuxGraph(TripleConnect(G, t), L, R, F)
  {
    var H := TripleConnect(G, t);
    forall e | e in H.W ensures e in AhoEdges(R) || FromForbidden(e, F) {
      if e !in G.W {
        assert e == UEdge(t.a, t.b) || e == UEdge(t.a, t.c);
      }
    }
  }

  // ---------------------------------------------------------------------
  // The algorithm
  // ---------------------------------------------------------------------

  /** `lookup[u]` lists the forbidden triples that contain `u`. */
  ghost predicate LookupOk(lookup: map<Leaf, seq<Triple>>, L: set<Leaf>, F: seq<Triple>)
  {
    && lookup.Keys == L
    && (forall u, t :: u in L ==> (t in lookup[u] <==> t in F && HasLeaf(t, u)))
  }

  /** The lookup of `mtt_partition`: one empty list per leaf, then each
      forbidden triple appended to the list of each of its leaves. */
  method BuildLookup(L: set<Leaf>, F: seq<Triple>) returns (lookup: map<Leaf, seq<Triple>>)
    requires Over(F, L)
    ensures LookupOk(lookup, L, F)
  {
    lookup := map u | u in L :: [];
    for i := 0 to |F|
      invariant lookup.Keys == L
      invariant forall u, t :: u in L ==> (t in lookup[u] <==> t in F[..i] && HasLeaf(t, u))
    {
      var t := F[i];
      assert F[..i + 1] == F[..i] + [t];
      lookup := lookup[t.a := lookup[t.a] + [t]];
      lookup := lookup[t.b := lookup[t.b] + [t]];
      lookup := lookup[t.c := lookup[t.c] + [t]];
    }
    assert F[..|F|] == F;
  }

  /** The forbidden triples that `P` separates. */
  function SeparatedTriples(P: set<set<Leaf>>, L: set<Leaf>, F: seq<Triple>): (S: set<Triple>)
    requires IsPartition(P, L) && Over(F, L)
    ensures forall t :: t in S <==> t in F && Separated(P, L, t)
  {
    set t | t in F && Separated(P, L, t)
  }

  /** The bookkeeping of the rescan: every triple of `S` has a and b in one
      block; a visited triple (in `D`) is in `S` iff the merged partition `P`
      separates it, an unvisited one iff the old partition did and it is not
      the popped triple `t0`. */
  ghost predicate RescanInv(S: set<Triple>, D: set<Triple>, L: set<Leaf>, F: seq<Triple>,
                            Pold: set<set<Leaf>>, t0: Triple, P: set<set<Leaf>>)
    requires IsPartition(Pold, L) && IsPartition(P, L) && Over(F, L)
  {
    && (forall t :: t in S ==> t in F && t.b in BlockOf(P, L, t.a))
    && (forall t :: t in F ==>
         (t in S <==> if t in D then Separated(P, L, t) else t != t0 && Separated(Pold, L, t)))
  }

  /** What the rescan does to `S` on visiting triple `t`. */
  function RescanUpdate(S: set<Triple>, P: set<set<Leaf>>, L: set<Leaf>, t: Triple): set<Triple>
    requires IsPartition(P, L) && Within(t, L)
  {
    if t in S && !Separated(P, L, t) then S - {t}
    else if t !in S && Separated(P, L, t) then S + {t}
    else S
  }

  /** Visiting a triple keeps the rescan bookkeeping, with the triple now
      counted as visited. */
  lemma RescanStep(S: set<Triple>, D: set<Triple>, L: set<Leaf>, F: seq<Triple>,
                   Pold: set<set<Leaf>>, t0: Triple, P: set<set<Leaf>>, t: Triple)
    requires IsPartition(Pold, L) && IsPartition(P, L) && Over(F, L) && t in F
    requires RescanInv(S, D, L, F, Pold, t0, P)
    ensures RescanInv(RescanUpdate(S, P, L, t), D + {t}, L, F, Pold, t0, P)
  {
  }

  /** The inner loop of the rescan over the list of one leaf: a triple still
      in `S` that `P` no longer separates is dropped and connected, one that
      `P` now separates is added. */
  method RescanTriples(L: set<Leaf>, R: seq<Triple>, F: seq<Triple>, ghost Pold: set<set<Leaf>>,
                       ghost t0: Triple, P: set<set<Leaf>>, ts: seq<Triple>,
                       S0: set<Triple>, G0: Graph, ghost D0: set<Triple>)
    returns (S: set<Triple>, G: Graph, ghost D: set<Triple>)
    requires IsPartition(Pold, L) && IsPartition(P, L) && Over(F, L)
    requires forall k :: 0 <= k < |ts| ==> ts[k] in F
    requires RescanInv(S0, D0, L, F, Pold, t0, P)
    requires IsComponents(P, L, G0.W.Keys) && AuxGraph(G0, L, R, F)
    ensures RescanInv(S, D, L, F, Pold, t0, P)
    ensures D0 <= D && forall k :: 0 <= k < |ts| ==> ts[k] in D
    ensures IsComponents(P, L, G.W.Keys) && AuxGraph(G, L, R, F)
  {
    S, G, D := S0, G0, D0;
    for j := 0 to |ts|
      invariant D0 <= D && forall k :: 0 <= k < j ==> ts[k] in D
      invariant RescanInv(S, D, L, F, Pold, t0, P)
      invariant IsComponents(P, L, G.W.Keys) && AuxGraph(G, L, R, F)
    {
      S, G, D := VisitTriple(L, R, F, Pold, t0, P, ts[j], S, G, D);
    }
  }

  /** One step of the inner loop of the rescan. */
  method VisitTriple(L: set<Leaf>, R: seq<Triple>, F: seq<Triple>, ghost Pold: set<set<Leaf>>,
                     ghost t0: Triple, P: set<set<Leaf>>, t: Triple,
                     S0: set<Triple>, G0: Graph, ghost D0: set<Triple>)
    returns (S: set<Triple>, G: Graph, ghost D: set<Triple>)
    requires IsPartition(Pold, L) && IsPartition(P, L) && Over(F, L) && t in F
    requires RescanInv(S0, D0, L, F, Pold, t0, P)
    requires IsComponents(P, L, G0.W.Keys) && AuxGraph(G0, L, R, F)
    ensures RescanInv(S, D, L, F, Pold, t0, P)
    ensures D == D0 + {t}
    ensures IsComponents(P, L, G.W.Keys) && AuxGraph(G, L, R, F)
  {
    RescanStep(S0, D0, L, F, Pold, t0, P, t);
    G := G0;
    if t in S0 && !Separated(P, L, t) {
      ConnectInside(P, L, G.W.Keys, t);
      ConnectKeepsAux(G, L, R, F, t);
      G := TripleConnect(G, t);
    }
    S := RescanUpdate(S0, P, L, t);
    D := D0 + {t};
  }

  /** Once every triple of every leaf of the smaller block is visited, `S`
      holds exactly the triples that the merged partition separates. */
  lemma RescanComplete(L: set<Leaf>, F: seq<Triple>, lookup: map<Leaf, seq<Triple>>,
                       Pold: set<set<Leaf>>, t0: Triple, S: set<Triple>, D: set<Triple>)
    requires IsPartition(Pold, L) && Over(F, L) && LookupOk(lookup, L, F)
    requires t0 in F && Separated(Pold, L, t0)
    requires IsPartition(MergeBlocks(Pold, L, t0.a, t0.c), L)
    requires RescanInv(S, D, L, F, Pold, t0, MergeBlocks(Pold, L, t0.a, t0.c))
    requires forall u, t :: u in SmallerBlock(Pold, L, t0.a, t0.c) && t in lookup[u] ==> t in D
    ensures S == SeparatedTriples(MergeBlocks(Pold, L, t0.a, t0.c), L, F)
  {
    var P := MergeBlocks(Pold, L, t0.a, t0.c);
    var small := SmallerBlock(Pold, L, t0.a, t0.c);
    assert t0 in D by {
      var u := if t0.a in small then t0.a else t0.c;
      assert t0 in lookup[u];
    }
    forall t | t in F && TouchesBlock(t, small) ensures t in D {
      var u := if t.a in small then t.a else if t.b in small then t.b else t.c;
      assert t in lookup[u];
    }
    forall t | t in F ensures t in S <==> Separated(P, L, t) {
      StatusChange(Pold, L, t0.a, t0.c, t);
    }
  }

  /** The rescan after `merge` in `mtt_partition`: visit the forbidden
      triples of every leaf of the smaller merged block; afterwards `S`
      again holds exactly the separated forbidden triples. */
  method Rescan(L: set<Leaf>, R: seq<Triple>, F: seq<Triple>, lookup: map<Leaf, seq<Triple>>,
                ghost Pold: set<set<Leaf>>, ghost t0: Triple, P: set<set<Leaf>>, small: set<Leaf>,
                S0: set<Triple>, G0: Graph)
    returns (S: set<Triple>, G: Graph)
    requires IsPartition(Pold, L) && Over(F, L) && LookupOk(lookup, L, F)
    requires t0 in F && Separated(Pold, L, t0)
    requires P == MergeBlocks(Pold, L, t0.a, t0.c) && small == SmallerBlock(Pold, L, t0.a, t0.c)
    requires S0 == SeparatedTriples(Pold, L, F) - {t0}
    requires IsPartition(P, L) && IsComponents(P, L, G0.W.Keys)
    requires AuxGraph(G0, L, R, F)
    ensures S == SeparatedTriples(P, L, F)
    ensures IsComponents(P, L, G.W.Keys) && AuxGraph(G, L, R, F)
  {
    S, G := S0, G0;
    forall t | t in S ensures t.b in BlockOf(P, L, t.a) {
      MergedBlockOf(Pold, L, t0.a, t0.c, t.a);
    }
    var todo := small;
    ghost var D: set<Triple> := {};
    while todo != {}
      invariant todo <= small
      invariant forall u, t :: u in small - todo && t in lookup[u] ==> t in D
      invariant RescanInv(S, D, L, F, Pold, t0, P)
      invariant IsComponents(P, L, G.W.Keys) && AuxGraph(G, L, R, F)
      decreases todo
    {
      ghost var w := Pick(todo);
      var u :| u in todo;
      var ts := lookup[u];
      S, G, D := RescanTriples(L, R, F, Pold, t0, P, ts, S, G, D);
      assert forall t :: t in ts ==> t in D;
      todo := todo - {u};
    }
    RescanComplete(L, F, lookup, Pold, t0, S, D);
  }

  /** Every merge of the main loop keeps the partition finer than any
      admissible one. */
  lemma MergeStepRefines(P: set<set<Leaf>>, L: set<Leaf>, R: seq<Triple>, F: seq<Triple>, t: Triple)
    requires IsPartition(P, L) && Over(F, L) && t in F && Separated(P, L, t)
    requires forall Q :: Admissible(Q, L, R, F) ==> Refines(P, Q)
    ensures IsPartition(MergeBlocks(P, L, t.a, t.c), L)
    ensures forall Q :: Admissible(Q, L, R, F) ==> Refines(MergeBlocks(P, L, t.a, t.c), Q)
  {
    MergeBlocksIsPartition(P, L, t.a, t.c);
    forall Q | Admissible(Q, L, R, F) ensures Refines(MergeBlocks(P, L, t.a, t.c), Q) {
      var i :| 0 <= i < |F| && F[i] == t;
      MergeRefines(P, Q, L, t);
    }
  }

  /** The unweighted Aho graph on the leaves `L` is an auxiliary graph, and
      its components are finer than any admissible partition. */
  lemma InitialState(L: set<Leaf>, R: seq<Triple>, F: seq<Triple>, G: Graph, P: set<set<Leaf>>)
    requires Over(R, L)
    requires G == AhoFold(R, L, false, map[])
    requires IsComponents(P, G.V, G.W.Keys)
    ensures AuxGraph(G, L, R, F)
    ensures forall Q :: Admissible(Q, L, R, F) ==> Refines(P, Q)
  {
    AhoFoldShape(R, L, false, map[]);
    forall e | e in G.W ensures G.W[e] == 0 {
      EdgeWeightCounts(R, e, false);
    }
    assert G.V == L;
    forall Q | Admissible(Q, L, R, F) ensures Refines(P, Q) {
      ComponentsRefine(P, L, G.W.Keys, Q);
    }
  }

  /** `mtt_partition(L, R, F)`: the partition is the components of the Aho
      graph, coarsened until no forbidden triple is separated; it is the
      finest partition that keeps the Aho graph's edges inside blocks and
      separates no forbidden triple, and it is exactly the components of the
      returned auxiliary graph. */
  method MttPartition(L: set<Leaf>, R: seq<Triple>, F: seq<Triple>) returns (P: set<set<Leaf>>, G: Graph)
    requires Over(R, L) && Over(F, L)
    ensures AuxGraph(G, L, R, F)
    ensures IsComponents(P, L, G.W.Keys)
    ensures Admissible(P, L, R, F)
    ensures forall Q :: Admissible(Q, L, R, F) ==> Refines(P, Q)
  {
    G := AhoGraphOf(R, L, false, map[]);
    P := ConnectedComponents(G);
    InitialState(L, R, F, G, P);
    if |P| == 1 {
      forall i | 0 <= i < |F| ensures !Separated(P, L, F[i]) {
        OneBlockSeparatesNothing(P, L, F[i]);
      }
      return;
    }
    var S := SeparatedTriples(P, L, F);
    var lookup := BuildLookup(L, F);
    while S != {}
      invariant IsComponents(P, L, G.W.Keys) && AuxGraph(G, L, R, F)
      invariant S == SeparatedTriples(P, L, F)
      invariant forall Q :: Admissible(Q, L, R, F) ==> Refines(P, Q)
      decreases |P|
    {
      ghost var w := Pick(S);
      var t :| t in S;
      S := S - {t};
      ghost var Pold := P;
      ConnectSeparated(P, L, G.W.Keys, t);
      ConnectKeepsAux(G, L, R, F, t);
      MergeStepRefines(P, L, R, F, t);
      var small := SmallerBlock(P, L, t.a, t.c);
      G := TripleConnect(G, t);
      P := MergeBlocks(P, L, t.a, t.c);
      S, G := Rescan(L, R, F, lookup, Pold, t, P, small, S, G);
    }
    forall i | 0 <= i < |F| ensures !Separated(P, L, F[i]) {
      assert F[i] !in S;
    }
  }
}
