/** The Louvain method as `Louvain.py` runs it: on each level every node is
    visited in a shuffled order and moved to the neighbouring community with
    the strictly largest modularity gain, sweeps repeat until nothing moves,
    and the communities found become the supernodes of the next level. */
module Louvain {
  import opened Wrappers
  import opened WeightedGraphs
  import opened Communities
  import opened Partitions

  /** `_next_level_graph`: supernode i holds the original nodes of part i,
      and every supernode pair carries the summed weight of the old edges
      between its parts, so the total weight is kept. */
  method NextLevelGraph(G: WGraph, members: seq<seq<nat>>, parts: seq<seq<nat>>)
    returns (H: WGraph, hMembers: seq<seq<nat>>)
    requires WellFormed(G) && |members| == G.n
    requires InRange(parts, G.n) && Covers(parts, G.n)
    ensures WellFormed(H) && H.n == |parts| && |hMembers| == |parts|
    ensures forall j :: 0 <= j < |parts| ==> hMembers[j] == Flatten(members, parts[j])
    ensures ContractionOf(G, parts, false, H)
    ensures Total(H) == Total(G)
  {
    H, hMembers := Contract(G, members, parts, false);
  }

  /** The fixed part of a level's invariant over `G`: `nodes` orders the
      nodes, `k` holds the weighted degrees and `m` the total weight. */
  ghost predicate GraphState(G: WGraph, nodes: seq<nat>, k: seq<real>, m: real)
  {
    && WellFormed(G)
    && IsPermutation(nodes, G.n)
    && |k| == G.n
    && (forall x :: 0 <= x < G.n ==> k[x] == Degree(G, x))
    && m == Total(G)
  }

  /** Under the level invariant `k` is the degree sequence of `G`. */
  lemma GraphStateDegrees(G: WGraph, nodes: seq<nat>, k: seq<real>, m: real)
    requires GraphState(G, nodes, k, m)
    ensures k == Degrees(G) && m == Total(G)
  {
  }

  /** The part of a level's invariant that moves change: `D` partitions
      the `n` nodes as `lab` says, and `tot[C]` is the sum of `k` over
      community C (0 for a deleted one). */
  ghost predicate PartState(n: nat, lab: seq<nat>, D: map<nat, set<nat>>, tot: map<nat, real>, k: seq<real>)
  {
    && |k| == n
    && IsCommunityMap(D, lab, n)
    && tot == ComTotals(k, lab, n)
  }

  /** Either nothing has moved and every node is alone, or some community
      has been deleted and there are fewer communities than nodes. */
  ghost predicate MergedState(moved: bool, n: nat, D: map<nat, set<nat>>, lab: seq<nat>)
  {
    && (!moved ==> D == Singletons(n) && lab == Range(n))
    && (moved ==> |D| < n)
  }

  /** The state `_initialize` builds meets the level invariant, with
      nothing moved yet. */
  lemma InitialLevelState(G: WGraph, nodes: seq<nat>, lab: seq<nat>, D: map<nat, set<nat>>,
                          tot: map<nat, real>, k: seq<real>, m: real)
    requires WellFormed(G) && |k| == G.n
    requires nodes == Range(G.n) && lab == Range(G.n) && D == Singletons(G.n) && m == Total(G)
    requires forall x :: 0 <= x < G.n ==> k[x] == Degree(G, x)
    requires forall C: nat :: C in tot <==> C < G.n
    requires forall C :: C in tot ==> tot[C] == k[C]
    ensures GraphState(G, nodes, k, m) && PartState(G.n, lab, D, tot, k)
    ensures MergedState(false, G.n, D, lab)
  {
    InitialState(G.n);
    forall C | C in tot
      ensures tot[C] == ComSum(k, lab, C, G.n)
    {
      ComSumRange(k, C, G.n);
    }
    assert tot == ComTotals(k, lab, G.n);
  }

  /** The bookkeeping of one visit of `x` that ends in community `b`: the
      partition invariant is kept, and the level has moved a node exactly
      when it has fewer communities than nodes. */
  lemma VisitState(n: nat, lab: seq<nat>, D: map<nat, set<nat>>, tot: map<nat, real>, k: seq<real>,
                   moved: bool, x: nat, b: nat)
    requires PartState(n, lab, D, tot, k) && MergedState(moved, n, D, lab)
    requires x < n && b in D
    ensures x < |lab| == |k| && lab[x] in D && lab[x] in tot && b in tot
    ensures PartState(n, lab[x := b], MoveTo(D, x, lab[x], b),
                      Shift(tot, lab[x], b, k[x]), k)
    ensures MergedState(moved || b != lab[x], n, MoveTo(D, x, lab[x], b), lab[x := b])
  {
    var Cx := lab[x];
    var D' := MoveTo(D, x, Cx, b);
    MovePartState(n, lab, D, tot, k, x, b);
    MoveKeepsCommunities(D, lab, n, x, b);
    FewerKeys(D, D');
    if b == Cx {
      StayKeeps(D, lab, n, x);
    } else if !moved {
      SingletonCount(n);
      assert D[Cx] == {x};
      assert Cx !in D';
      assert D'.Keys + {Cx} == D.Keys;
    }
  }

  /** Moving `x` to community `b` and shifting its degree between the two
      community totals keeps the partition invariant. */
  lemma MovePartState(n: nat, lab: seq<nat>, D: map<nat, set<nat>>, tot: map<nat, real>, k: seq<real>,
                      x: nat, b: nat)
    requires PartState(n, lab, D, tot, k) && x < n && b in D
    ensures PartState(n, lab[x := b], MoveTo(D, x, lab[x], b),
                      Shift(tot, lab[x], b, k[x]), k)
  {
    MoveKeepsCommunities(D, lab, n, x, b);
    var t' := Shift(tot, lab[x], b, k[x]);
    forall C | C in t'
      ensures t'[C] == ComSum(k, lab[x := b], C, n)
    {
      ComSumDrop(k, lab, x, C, n);
      ComSumMove(k, lab, x, b, C, n);
    }
    assert t' == ComTotals(k, lab[x := b], n);
  }

  /** One level of the method (`_Level`) over the graph `graph`. */
  class Level {
    const graph: WGraph
    var nodes: seq<nat>
    var nodeToCom: seq<nat>
    var communities: map<nat, set<nat>>
    var comTot: map<nat, real>
    var k: seq<real>
    var m: real
    var movedOnLevel: bool
    var totalModularityGain: real
    /** The last sweep of `_cluster` moved nothing (and was not cut short
        by the sweep bound). */
    ghost var converged: bool

    /** `k` holds the weighted degrees and `m` the total weight,
        `communities` partitions the nodes as `nodeToCom` says, and
        `com_tot[C]` is the sum of `k` over community C (0 for a deleted one). */
    ghost predicate Valid()
      reads this
    {
      GraphState(graph, nodes, k, m) && PartState(graph.n, nodeToCom, communities, comTot, k)
    }

    /** No move has happened yet and every node is alone, or some move has
        emptied and deleted a community. */
    ghost predicate MovedIffMerged()
      reads this
    {
      MergedState(movedOnLevel, graph.n, communities, nodeToCom)
    }

    /** The gain of moving `x` into community `C` under the current labels. */
    ghost function GainOf(x: nat, C: nat): real
      reads this
      requires Valid() && m != 0.0 && x < graph.n
    {
      MoveGain(graph, k, m, nodeToCom, x, C)
    }

    /** No node has a neighbouring community it would strictly gain by
        joining: the state a sweep without moves leaves behind. */
    ghost predicate LocalOptimum()
      reads this
      requires Valid()
    {
      m != 0.0 ==>
        forall x, y :: 0 <= x < graph.n && 0 <= y < graph.n && UPair(x, y) in graph.w ==>
          GainOf(x, nodeToCom[y]) <= GainOf(x, nodeToCom[x])
    }

    /** The labels are locally optimal for the graph's own degrees and
        total weight. */
    lemma OptimumOfGraph()
      requires Valid() && LocalOptimum()
      ensures LocallyOptimal(graph, nodeToCom)
    {
      GraphStateDegrees(graph, nodes, k, m);
    }

    /** `__init__`: `_initialize` followed by `_cluster`; a level whose
        sweeps came to rest leaves every node where no neighbouring
        community would gain it more. */
    constructor (G: WGraph, fuel: nat)
      requires WellFormed(G)
      ensures graph == G && Valid() && MovedIffMerged()
      ensures movedOnLevel <==> |communities| < G.n
      ensures Total(G) == 0.0 ==> communities == Singletons(G.n) && nodeToCom == Range(G.n)
      ensures converged ==> LocallyOptimal(G, nodeToCom)
    {
      graph := G;
      new;
      Initialize();
      converged := Cluster(fuel);
      if converged {
        OptimumOfGraph();
      }
    }

    /** `_initialize`: every node alone in its own community, `k` the
        weighted degrees, `com_tot` equal to `k` and `m` the total weight;
        with nothing moved, `MovedIffMerged` says that `communities` are the
        singletons and `node_to_com` is the identity. */
    method Initialize()
      requires WellFormed(graph)
      modifies this
      ensures Valid() && MovedIffMerged()
      ensures nodes == Range(graph.n)
      ensures !movedOnLevel && totalModularityGain == 0.0
    {
      var n := graph.n;
      var lab := Range(n);
      var deg, tot := Degrees(graph, lab);
      InitialLevelState(graph, lab, lab, Singletons(n), tot, deg, Total(graph));
      nodes, nodeToCom, communities, comTot, k, m, movedOnLevel, totalModularityGain :=
        lab, lab, Singletons(n), tot, deg, Total(graph), false, 0.0;
    }

    /** The edge loop of `_initialize` under the identity labels `lab`:
        each edge adds its weight to the degrees of both ends and to the
        totals of both ends' communities. */
    static method Degrees(G: WGraph, lab: seq<nat>) returns (deg: seq<real>, tot: map<nat, real>)
      requires WellFormed(G) && lab == Range(G.n)
      ensures |deg| == G.n && forall x :: 0 <= x < G.n ==> deg[x] == Degree(G, x)
      ensures forall C: nat :: C in tot <==> C < G.n
      ensures forall C :: C in tot ==> tot[C] == deg[C]
    {
      var n := G.n;
      tot := map i | i in RangeSet(n) :: 0.0;
      deg := seq(n, _ => 0.0);
      for i := 0 to |G.order|
        invariant |deg| == n
        invariant forall x :: 0 <= x < n ==> deg[x] == DegreeUpTo(G, i, x)
        invariant forall C: nat :: C in tot <==> C < n
        invariant forall C :: C in tot ==> tot[C] == deg[C]
      {
        var e := G.order[i];
        var wt := G.w[e];
        var x, y := e.lo, e.hi;
        deg := deg[x := deg[x] + wt];
        deg := deg[y := deg[y] + wt];
        tot := tot[lab[x] := tot[lab[x]] + wt];
        tot := tot[lab[y] := tot[lab[y]] + wt];
      }
    }

    /** `_weight_sums_to_communities(x)` under the labels `lab`: for x's own
        community and each community holding a neighbour y != x, the weight
        of x's edges into it; self-loops are skipped. */
    static method WeightSumsToCommunities(G: WGraph, lab: seq<nat>, x: nat) returns (ws: map<nat, real>)
      requires WellFormed(G) && |lab| == G.n && x < G.n
      ensures lab[x] in ws
      ensures forall C :: C in ws <==> C == lab[x] || Touches(G, lab, x, C, G.n)
      ensures forall C :: C in ws ==> ws[C] == WeightTo(G, lab, x, C, G.n)
    {
      ws := map[lab[x] := 0.0];
      for y := 0 to G.n
        invariant lab[x] in ws
        invariant forall C :: C in ws <==> C == lab[x] || Touches(G, lab, x, C, y)
        invariant forall C :: C in ws ==> ws[C] == WeightTo(G, lab, x, C, y)
        invariant forall C :: C !in ws ==> WeightTo(G, lab, x, C, y) == 0.0
      {
        if UPair(x, y) in G.w && x != y {
          var C := lab[y];
          var wt := G.w[UPair(x, y)];
          ws := ws[C := (if C in ws then ws[C] else 0.0) + wt];
        }
      }
    }

    /** The search of `_cluster` for x's best community: starting from x's
        own community, each neighbour's community other than x's replaces
        the best so far when its gain is strictly greater. `kxIn` and `tot`
        are the weights into and totals of the communities with x taken out. */
    static method BestCommunity(G: WGraph, k: seq<real>, m: real, lab: seq<nat>, x: nat,
                                kxIn: map<nat, real>, tot: map<nat, real>)
      returns (bestC: nat, bestGain: real)
      requires |k| == |lab| == G.n && m != 0.0 && x < G.n
      requires forall y :: 0 <= y < G.n ==> lab[y] < G.n
      requires forall C :: C in kxIn <==> C == lab[x] || Touches(G, lab, x, C, G.n)
      requires forall C :: C in kxIn ==> kxIn[C] == WeightTo(G, lab, x, C, G.n)
      requires forall C: nat :: C in tot <==> C < G.n
      requires forall C :: C in tot ==> tot[C] == ComSum(k[x := 0.0], lab, C, G.n)
      ensures bestC == lab[x] || Touches(G, lab, x, bestC, G.n)
      ensures bestGain == MoveGain(G, k, m, lab, x, bestC)
      ensures bestC != lab[x] ==> bestGain > MoveGain(G, k, m, lab, x, lab[x])
      ensures forall y :: 0 <= y < G.n && UPair(x, y) in G.w ==> MoveGain(G, k, m, lab, x, lab[y]) <= bestGain
    {
      var n := G.n;
      var Cx := lab[x];
      var costRemoval := Gain(kxIn[Cx], tot[Cx], k[x], m);
      bestGain, bestC := costRemoval, Cx;
      var visited := {Cx};
      for y := 0 to n
        invariant bestC < n
        invariant bestC == Cx || Touches(G, lab, x, bestC, n)
        invariant bestGain == MoveGain(G, k, m, lab, x, bestC)
        invariant bestGain >= costRemoval
        invariant bestC != Cx ==> bestGain > costRemoval
        invariant forall z :: 0 <= z < y && UPair(x, z) in G.w ==> MoveGain(G, k, m, lab, x, lab[z]) <= bestGain
      {
        if UPair(x, y) in G.w {
          var Cy := lab[y];
          if Cy !in visited {
            TouchesAt(G, lab, x, y, n);
            var newGain := Gain(kxIn[Cy], tot[Cy], k[x], m);
            if newGain > bestGain {
              bestGain := newGain;
              bestC := Cy;
            }
          }
        }
      }
    }

    /** One pass of the inner loop of `_cluster` for node `x`: take x out of
        its community, keep it there unless a neighbouring community offers
        a strictly greater gain, and delete its old community if emptied. */
    method Visit(x: nat) returns (moved: bool)
      requires Valid() && MovedIffMerged() && m != 0.0 && x < graph.n
      modifies this
      ensures Valid() && MovedIffMerged()
      ensures nodes == old(nodes) && k == old(k) && m == old(m)
      ensures nodeToCom == old(nodeToCom)[x := nodeToCom[x]]
      ensures moved <==> nodeToCom[x] != old(nodeToCom[x])
      ensures movedOnLevel == (old(movedOnLevel) || moved)
      ensures moved ==> Touches(graph, old(nodeToCom), x, nodeToCom[x], graph.n)
      ensures var lab, b := old(nodeToCom), nodeToCom[x];
        && (moved ==> MoveGain(graph, k, m, lab, x, b) > MoveGain(graph, k, m, lab, x, lab[x]))
        && (forall y :: 0 <= y < graph.n && UPair(x, y) in graph.w ==>
              MoveGain(graph, k, m, lab, x, lab[y]) <= MoveGain(graph, k, m, lab, x, b))
        && totalModularityGain == old(totalModularityGain)
             + (MoveGain(graph, k, m, lab, x, b) - MoveGain(graph, k, m, lab, x, lab[x]))
    {
      var n, lab, kk, mm := graph.n, nodeToCom, k, m;
      var Cx := lab[x];
      var kxIn := WeightSumsToCommunities(graph, lab, x);
      var tot := comTot[Cx := comTot[Cx] - kk[x]];
      forall C | C in tot
        ensures tot[C] == ComSum(kk[x := 0.0], lab, C, n)
      {
        ComSumDrop(kk, lab, x, C, n);
      }
      var costRemoval := Gain(kxIn[Cx], tot[Cx], kk[x], mm);
      var bestC, bestGain := BestCommunity(graph, kk, mm, lab, x, kxIn, tot);
      moved := bestC != Cx;
      if bestC != Cx {
        var y := TouchedBy(graph, lab, x, bestC, n);
      }
      Settle(x, bestC, bestGain - costRemoval);
    }

    /** The end of a visit of `x` in `_cluster`: x leaves its community
        for `b` (deleting the old one if that left it empty), its degree
        moves from the old community's total to b's, and the gain `delta` is
        added to the running total. */
    method Settle(x: nat, b: nat, delta: real)
      requires Valid() && MovedIffMerged() && x < graph.n && b in communities
      modifies this
      ensures Valid() && MovedIffMerged()
      ensures nodes == old(nodes) && k == old(k) && m == old(m)
      ensures nodeToCom == old(nodeToCom)[x := b]
      ensures communities == MoveTo(old(communities), x, old(nodeToCom[x]), b)
      ensures comTot == Shift(old(comTot), old(nodeToCom[x]), b, k[x])
      ensures movedOnLevel == (old(movedOnLevel) || b != old(nodeToCom[x]))
      ensures totalModularityGain == old(totalModularityGain) + delta
    {
      VisitState(graph.n, nodeToCom, communities, comTot, k, movedOnLevel, x, b);
      var Cx := nodeToCom[x];
      communities, comTot, nodeToCom, movedOnLevel, totalModularityGain :=
        MoveTo(communities, x, Cx, b), Shift(comTot, Cx, b, k[x]), nodeToCom[x := b],
        movedOnLevel || b != Cx, totalModularityGain + delta;
    }

    /** One sweep of `_cluster` over `nodes`; it reports whether any node moved. */
    method Sweep() returns (movedNode: bool)
      requires Valid() && MovedIffMerged() && m != 0.0
      modifies this
      ensures Valid() && MovedIffMerged()
      ensures nodes == old(nodes)
      ensures !movedNode ==> nodeToCom == old(nodeToCom)
      ensures !movedNode ==> LocalOptimum()
    {
      movedNode := false;
      for i := 0 to graph.n
        invariant Valid() && MovedIffMerged() && m != 0.0
        invariant nodes == old(nodes)
        invariant !movedNode ==> nodeToCom == old(nodeToCom)
        invariant !movedNode ==> forall j, y :: 0 <= j < i && 0 <= y < graph.n && UPair(nodes[j], y) in graph.w ==>
                    GainOf(nodes[j], nodeToCom[y]) <= GainOf(nodes[j], nodeToCom[nodes[j]])
      {
        var movedX := Visit(nodes[i]);
        if movedX {
          movedNode := true;
        }
      }
      if !movedNode {
        forall x, y | 0 <= x < graph.n && 0 <= y < graph.n && UPair(x, y) in graph.w
          ensures GainOf(x, nodeToCom[y]) <= GainOf(x, nodeToCom[x])
        {
          assert x in nodes;
          var j :| 0 <= j < graph.n && nodes[j] == x;
        }
      }
    }

    /** `_cluster`: nothing to do on an edgeless graph; otherwise shuffle the
        nodes and sweep until a sweep moves nothing (or `fuel` sweeps are
        done). A level moved a node iff it ends with fewer communities than
        nodes. */
    method Cluster(fuel: nat) returns (ghost converged: bool)
      requires Valid() && !movedOnLevel && MovedIffMerged()
      modifies this
      ensures Valid() && MovedIffMerged()
      ensures movedOnLevel <==> |communities| < graph.n
      ensures m == 0.0 ==> communities == Singletons(graph.n) && nodeToCom == Range(graph.n)
      ensures converged ==> LocalOptimum()
    {
      converged := true;
      if m == 0.0 {
        SingletonCount(graph.n);
        return;
      }
      InitialState(graph.n);
      var shuffled :| IsPermutation(shuffled, graph.n);
      nodes := shuffled;
      converged := false;
      var sweep := 0;
      while sweep < fuel
        invariant Valid() && MovedIffMerged() && m != 0.0
        invariant !converged
        decreases fuel - sweep
      {
        var movedNode := Sweep();
        if !movedNode {
          converged := true;
          break;
        }
        sweep := sweep + 1;
      }
      if !movedOnLevel {
        SingletonCount(graph.n);
      }
    }

    /** `get_partition`: for each community, in key order, the set of the
        original nodes of its supernodes (`members[s]` lists those of s). */
    function GetPartition(members: seq<seq<nat>>): (P: seq<set<nat>>)
      reads this
      requires Valid() && |members| == graph.n
      ensures |P| == |communities| == |Listing(communities.Keys, graph.n)|
      ensures forall j :: 0 <= j < |P| ==> Listing(communities.Keys, graph.n)[j] in communities
      ensures forall j, y :: 0 <= j < |P| ==>
        (y in P[j] <==> exists s :: 0 <= s < |members| && s in communities[Listing(communities.Keys, graph.n)[j]] && y in members[s])
    {
      KeyCount(communities, graph.n);
      PartitionMembers(members, communities, nodeToCom, graph.n);
      Sets(FlattenAll(members, Parts(communities, graph.n)))
    }
  }

  /** The original nodes in block j of a level's partition are those of
      the supernodes in the j-th community. */
  lemma PartitionMembers(members: seq<seq<nat>>, D: map<nat, set<nat>>, lab: seq<nat>, n: nat)
    requires |members| == n && IsCommunityMap(D, lab, n)
    ensures InRange(Parts(D, n), n)
    ensures forall j, y :: 0 <= j < |Parts(D, n)| ==>
      (y in Sets(FlattenAll(members, Parts(D, n)))[j] <==>
       exists s :: 0 <= s < n && s in D[Listing(D.Keys, n)[j]] && y in members[s])
  {
    var K, parts := Listing(D.Keys, n), Parts(D, n);
    PartsInRange(D, n);
    var P := Sets(FlattenAll(members, parts));
    forall j, y | 0 <= j < |parts|
      ensures y in P[j] <==> exists s :: 0 <= s < n && s in D[K[j]] && y in members[s]
    {
      FlattenMembers(members, parts[j], y);
      if y in P[j] {
        var t :| 0 <= t < |parts[j]| && y in members[parts[j][t]];
        assert parts[j][t] in parts[j];
      }
      if s :| 0 <= s < n && s in D[K[j]] && y in members[s] {
        assert lab[s] == K[j];
        assert s in parts[j];
        var t :| 0 <= t < |parts[j]| && parts[j][t] == s;
      }
    }
  }

  /** What a `_run` iteration records after a level that moved a node:
      the partition of the original nodes, the communities `snPart` as a
      partition of the level's supernodes and their modularity on the
      level's graph, and the next level's graph with the original members
      of its supernodes. */
  datatype Ascent = Ascent(partition: seq<set<nat>>, snPart: seq<set<nat>>, modularity: real,
                           graph: WGraph, members: seq<seq<nat>>)

  /** What one level of `_run` did: the graph it ran on with the original
      members of its supernodes, the labels and communities it ended with,
      and whether its sweeps came to rest. */
  datatype LevelRun = LevelRun(graph: WGraph, members: seq<seq<nat>>, lab: seq<nat>,
                               communities: map<nat, set<nat>>, converged: bool)

  /** The level ran on a graph whose supernodes partition the N original
      nodes, ended with `communities` partitioning its nodes as `lab`
      says, and, if its sweeps came to rest, no node would gain by joining
      a neighbour's community. */
  ghost predicate Clustered(run: LevelRun, N: nat)
  {
    && WellFormed(run.graph) && |run.members| == run.graph.n && Supernodes(run.members, N)
    && IsCommunityMap(run.communities, run.lab, run.graph.n)
    && (run.converged ==> LocallyOptimal(run.graph, run.lab))
  }

  /** The level moved nothing: every node is still alone. */
  ghost predicate Still(run: LevelRun)
  {
    run.lab == Range(run.graph.n) && run.communities == Singletons(run.graph.n)
  }

  /** The communities of the level, as lists of its nodes in key order. */
  ghost function Found(run: LevelRun): seq<seq<nat>>
  {
    Parts(run.communities, run.graph.n)
  }

  /** The level merged communities, and `H`, whose supernode j holds the
      original nodes `hMembers[j]`, is the graph its communities contract
      to. */
  ghost predicate Climbs(run: LevelRun, H: WGraph, hMembers: seq<seq<nat>>)
  {
    && |run.communities| < run.graph.n
    && ContractionOf(run.graph, Found(run), false, H)
    && InRange(Found(run), |run.members|) && hMembers == FlattenAll(run.members, Found(run))
  }

  /** What `_run` records after the level `run` merged communities: they,
      contracted, become the supernodes of `a.graph`, which again
      partition the N original nodes, are fewer, and give the recorded
      partition, and the recorded modularity is that of the communities on
      the level's graph; the contraction keeps the total edge weight. */
  ghost predicate Ascends(run: LevelRun, a: Ascent, N: nat, modularity: (WGraph, seq<set<nat>>) -> real)
  {
    && Climbs(run, a.graph, a.members) && a.snPart == Sets(Found(run)) && Total(a.graph) == Total(run.graph)
    && WellFormed(a.graph) && |a.members| == a.graph.n < run.graph.n
    && Supernodes(a.members, N) && a.partition == Sets(a.members)
    && IsPartitionOf(a.snPart, run.graph.n) && |a.snPart| == a.graph.n
    && a.modularity == modularity(run.graph, a.snPart)
  }

  /** The `_run` iteration after a level that merged communities. */
  method Ascend(level: Level, members: seq<seq<nat>>, ghost N: nat,
                modularity: (WGraph, seq<set<nat>>) -> real)
    returns (a: Ascent)
    requires level.Valid() && |members| == level.graph.n && Supernodes(members, N)
    requires |level.communities| < level.graph.n
    ensures Ascends(LevelRun(level.graph, members, level.nodeToCom, level.communities, level.converged),
                    a, N, modularity)
  {
    var graph := level.graph;
    var D, n := level.communities, graph.n;
    KeyCount(D, n);
    NextSupernodes(members, N, D, level.nodeToCom, n);
    PartsOfCommunities(D, level.nodeToCom, n);
    PartsPartition(D, level.nodeToCom, n);
    var snPart := Parts(D, n);
    var mod := modularity(graph, Sets(snPart));
    var P := level.GetPartition(members);
    var next, nextMembers := NextLevelGraph(graph, members, snPart);
    assert nextMembers == FlattenAll(members, snPart);
    return Ascent(P, Sets(snPart), mod, next, nextMembers);
  }

  /** One iteration of the `_run` loop on `graph`, whose supernode s holds
      the original nodes `members[s]`: run a level (`run` records it); if
      it moved nothing, stop; otherwise its communities, contracted,
      become the next level's supernodes, which again partition the
      original nodes, are fewer, and give the recorded partition, and the
      recorded modularity is that of the communities on `graph`. */
  method LevelStep(graph: WGraph, members: seq<seq<nat>>, ghost N: nat,
                   modularity: (WGraph, seq<set<nat>>) -> real, fuel: nat)
    returns (step: Option<Ascent>, ghost run: LevelRun)
    requires WellFormed(graph) && |members| == graph.n && Supernodes(members, N)
    ensures run.graph == graph && run.members == members && Clustered(run, N)
    ensures step.None? <==> Still(run)
    ensures step.Some? ==> Ascends(run, step.value, N, modularity)
  {
    var level := new Level(graph, fuel);
    run := LevelRun(graph, members, level.nodeToCom, level.communities, level.converged);
    if !level.movedOnLevel {
      return None, run;
    }
    SingletonCount(graph.n);
    var a := Ascend(level, members, N, modularity);
    return Some(a), run;
  }

  /** Every entry of `partitions` partitions 0..N-1, and each has fewer
      blocks than the one before it. */
  ghost predicate Coarsening(partitions: seq<seq<set<nat>>>, N: nat)
  {
    && (forall i :: 0 <= i < |partitions| ==> IsPartitionOf(partitions[i], N))
    && (forall i :: 0 < i < |partitions| ==> |partitions[i]| < |partitions[i - 1]|)
  }

  /** The graph of the first level: `_next_level_graph` on the singleton
      partition, so supernode x holds just the original node x. */
  method FirstLevelGraph(G: WGraph) returns (graph: WGraph, members: seq<seq<nat>>)
    requires WellFormed(G)
    ensures WellFormed(graph) && graph.n == G.n && members == Units(G.n)
    ensures ContractionOf(G, Units(G.n), false, graph) && Total(graph) == Total(G)
  {
    var units := Units(G.n);
    UnitsPartition(G.n);
    graph, members := NextLevelGraph(G, units, units);
    forall x | 0 <= x < G.n
      ensures members[x] == [x]
    {
      assert units[x] == [x] && [x][..0] == [];
      assert members[x] == Flatten(units, [x]) == Flatten(units, []) + units[x];
    }
  }

  /** The modularity `_run` records after the level `run`: that of its
      communities on the graph it ran on. */
  ghost function FoundModularity(modularity: (WGraph, seq<set<nat>>) -> real, run: LevelRun): real
  {
    modularity(run.graph, Sets(Found(run)))
  }

  /** `levels` are the levels of a `_run` on the graph `G` of N nodes that
      recorded `partitions` and `mods`: level 0 runs on `G` with each node
      its own supernode, each level records the partition its supernodes
      make, every level but the last merged communities whose contraction
      the next level runs on, with their modularity recorded, and the last
      level moved nothing. */
  ghost predicate Ran(G: WGraph, N: nat, modularity: (WGraph, seq<set<nat>>) -> real,
                      levels: seq<LevelRun>, partitions: seq<seq<set<nat>>>, mods: seq<real>)
  {
    && |levels| == |partitions| == |mods| >= 1
    && levels[0].members == Units(N) && ContractionOf(G, Units(N), false, levels[0].graph)
    && (forall j :: 0 <= j < |levels| ==> Clustered(levels[j], N) && partitions[j] == Sets(levels[j].members))
    && (forall j :: 0 <= j < |levels| - 1 ==>
          Climbs(levels[j], levels[j + 1].graph, levels[j + 1].members)
          && mods[j + 1] == FoundModularity(modularity, levels[j]))
    && Still(levels[|levels| - 1])
  }

  /** The loop invariant of `_run` behind `Ran`: the levels `done` so far,
      each of which merged communities, lead to the level about to run on
      `graph` with supernode members `members`. */
  ghost predicate Climbing(G: WGraph, N: nat, modularity: (WGraph, seq<set<nat>>) -> real,
                           done: seq<LevelRun>, partitions: seq<seq<set<nat>>>, mods: seq<real>,
                           graph: WGraph, members: seq<seq<nat>>)
  {
    && |done| + 1 == |partitions| == |mods|
    && (forall j :: 0 <= j < |done| ==> Clustered(done[j], N) && partitions[j] == Sets(done[j].members))
    && (forall j :: 0 <= j < |done| - 1 ==>
          Climbs(done[j], done[j + 1].graph, done[j + 1].members)
          && mods[j + 1] == FoundModularity(modularity, done[j]))
    && partitions[|done|] == Sets(members)
    && (|done| == 0 ==> members == Units(N) && ContractionOf(G, Units(N), false, graph))
    && (|done| > 0 ==>
          && done[0].members == Units(N) && ContractionOf(G, Units(N), false, done[0].graph)
          && Climbs(done[|done| - 1], graph, members)
          && mods[|done|] == FoundModularity(modularity, done[|done| - 1]))
  }

  /** `Louvain.__init__` and `_run` on `input`, with `modularity` standing
      for networkx's modularity on graphs of non-zero total weight and
      `fuel` bounding the sweeps of each level. networkx divides by the sum
      of the degrees, twice the total weight, so the first call, on the
      input itself, raises `ZeroDivisionError` when that weight is 0; every
      later call is on a level's graph, which keeps the input's total
      weight, so none of them raises. Level 0 is the singleton partition;
      every further level is the partition of the original nodes found by
      a level that moved a node, and the loop stops at the first level
      that moves nothing.
      Every partition is a partition of the original nodes, each has
      fewer blocks than the one before, and one modularity value is kept
      per partition: that of the partition itself on the input graph at
      level 0, and after it that of the communities a level found on the
      graph it ran on, the contraction of the level before (`levels`
      records the levels). */
  method Run(input: Input, modularity: (WGraph, seq<set<nat>>) -> real, fuel: nat)
    returns (r: Result<(seq<seq<set<nat>>>, seq<real>)>, ghost levels: seq<LevelRun>)
    requires !input.NotAGraph? ==> WellFormed(input.g)
    ensures r.Failure? <==> !input.UndirectedGraph? || Total(input.g) == 0.0
    ensures r.Failure? ==> if input.UndirectedGraph? then r.error == ZeroDivisionError else r.error.TypeError?
    ensures r.Success? ==> var (partitions, mods) := r.value; var N := input.g.n;
      && |partitions| == |mods| >= 1
      && |partitions[0]| == N && (forall x :: 0 <= x < N ==> partitions[0][x] == {x})
      && mods[0] == modularity(input.g, partitions[0])
      && Coarsening(partitions, N)
      && Ran(input.g, N, modularity, levels, partitions, mods)
      && KeepTotal(levels, Total(input.g))
  {
    var checked := CheckInput(input);
    if checked.Failure? {
      return Failure(checked.error), [];
    }
    var G := checked.value;
    if Total(G) == 0.0 {
      return Failure(ZeroDivisionError), [];
    }
    var N := G.n;
    UnitsPartition(N);
    var partitions := [Sets(Units(N))];
    var mods := [modularity(G, partitions[0])];
    ghost var done: seq<LevelRun> := [];
    var graph, members := FirstLevelGraph(G);
    while true
      invariant WellFormed(graph) && |members| == graph.n && Supernodes(members, N)
      invariant Climbing(G, N, modularity, done, partitions, mods, graph, members)
      invariant partitions[0] == Sets(Units(N)) && mods[0] == modularity(G, partitions[0])
      invariant Coarsening(partitions, N)
      invariant Total(graph) == Total(G) && KeepTotal(done, Total(G))
      decreases graph.n
    {
      var step, run := LevelStep(graph, members, N, modularity, fuel);
      if step.None? {
        levels := done + [run];
        RanEnd(G, N, modularity, done, partitions, mods, run);
        KeepTotalSnoc(done, run, Total(G));
        break;
      }
      var a := step.value;
      CoarseningSnoc(partitions, a.partition, N);
      ClimbingSnoc(G, N, modularity, done, partitions, mods, run, a.graph, a.members);
      KeepTotalSnoc(done, run, Total(G));
      partitions, mods := partitions + [a.partition], mods + [a.modularity];
      done := done + [run];
      graph, members := a.graph, a.members;
    }
    assert partitions[0] == Sets(Units(N));
    r := Success((partitions, mods));
  }

  /** A level that merged communities extends the climb to the level on
      their contraction. */
  lemma ClimbingSnoc(G: WGraph, N: nat, modularity: (WGraph, seq<set<nat>>) -> real,
                     done: seq<LevelRun>, partitions: seq<seq<set<nat>>>, mods: seq<real>,
                     run: LevelRun, H: WGraph, hMembers: seq<seq<nat>>)
    requires Climbing(G, N, modularity, done, partitions, mods, run.graph, run.members)
    requires Clustered(run, N) && Climbs(run, H, hMembers)
    ensures Climbing(G, N, modularity, done + [run], partitions + [Sets(hMembers)],
                     mods + [FoundModularity(modularity, run)], H, hMembers)
  {
    var ds, ps, ms := done + [run], partitions + [Sets(hMembers)], mods + [FoundModularity(modularity, run)];
    forall j | 0 <= j < |ds|
      ensures Clustered(ds[j], N) && ps[j] == Sets(ds[j].members)
    {
      if j < |done| {
        assert ps[j] == partitions[j];
        ClusteredCopy(done[j], ds[j], N);
      } else {
        ClusteredCopy(run, ds[j], N);
      }
    }
    forall j | 0 <= j < |ds| - 1
      ensures Climbs(ds[j], ds[j + 1].graph, ds[j + 1].members)
      ensures ms[j + 1] == FoundModularity(modularity, ds[j])
    {
      if j + 1 == |done| {
        assert ms[j + 1] == mods[|done|];
        ClimbsCopy(done[|done| - 1], run.graph, run.members, ds[j], ds[j + 1].graph, ds[j + 1].members);
      } else {
        assert ms[j + 1] == mods[j + 1];
        ClimbsCopy(done[j], done[j + 1].graph, done[j + 1].members, ds[j], ds[j + 1].graph, ds[j + 1].members);
      }
    }
    if done == [] {
      assert ds[0] == run;
    } else {
      assert ds[0] == done[0];
    }
  }

  /** A level that moved nothing ends the climb: the levels run so far
      and it are those of the whole run. */
  lemma RanEnd(G: WGraph, N: nat, modularity: (WGraph, seq<set<nat>>) -> real,
               done: seq<LevelRun>, partitions: seq<seq<set<nat>>>, mods: seq<real>, run: LevelRun)
    requires Climbing(G, N, modularity, done, partitions, mods, run.graph, run.members)
    requires Clustered(run, N) && Still(run)
    ensures Ran(G, N, modularity, done + [run], partitions, mods)
  {
    var ls := done + [run];
    forall j | 0 <= j < |ls|
      ensures Clustered(ls[j], N) && partitions[j] == Sets(ls[j].members)
    {
      if j < |done| {
        assert ls[j] == done[j];
        ClusteredCopy(done[j], ls[j], N);
      } else {
        assert j == |done| && ls[j] == run;
        ClusteredCopy(run, ls[j], N);
      }
    }
    forall j | 0 <= j < |ls| - 1
      ensures Climbs(ls[j], ls[j + 1].graph, ls[j + 1].members)
      ensures mods[j + 1] == FoundModularity(modularity, ls[j])
    {
      if j + 1 == |done| {
        assert ls[j] == done[|done| - 1] && ls[j + 1] == run && mods[j + 1] == mods[|done|];
        ClimbsCopy(done[|done| - 1], run.graph, run.members, ls[j], ls[j + 1].graph, ls[j + 1].members);
      } else {
        assert ls[j] == done[j] && ls[j + 1] == done[j + 1];
        ClimbsCopy(done[j], done[j + 1].graph, done[j + 1].members, ls[j], ls[j + 1].graph, ls[j + 1].members);
      }
    }
    if done != [] {
      assert ls[0] == done[0];
    }
  }

  /** `Clustered` carries over to an equal level. */
  lemma ClusteredCopy(run: LevelRun, run': LevelRun, N: nat)
    requires Clustered(run, N) && run' == run
    ensures Clustered(run', N)
  {
  }

  /** `Climbs` carries over to equal arguments. */
  lemma ClimbsCopy(run: LevelRun, H: WGraph, hMembers: seq<seq<nat>>,
                   run': LevelRun, H': WGraph, hMembers': seq<seq<nat>>)
    requires Climbs(run, H, hMembers) && run' == run && H' == H && hMembers' == hMembers
    ensures Climbs(run', H', hMembers')
  {
  }

  /** Every level of `levels` runs on a graph of total weight `t`. */
  ghost predicate KeepTotal(levels: seq<LevelRun>, t: real)
  {
    forall j :: 0 <= j < |levels| ==> Total(levels[j].graph) == t
  }

  /** A level on a graph of the same total weight extends `KeepTotal`. */
  lemma KeepTotalSnoc(levels: seq<LevelRun>, run: LevelRun, t: real)
    requires KeepTotal(levels, t) && Total(run.graph) == t
    ensures KeepTotal(levels + [run], t)
  {
    var ls := levels + [run];
    forall j | 0 <= j < |ls|
      ensures Total(ls[j].graph) == t
    {
      if j < |levels| {
        assert ls[j] == levels[j];
      } else {
        assert ls[j] == run;
      }
    }
  }

  /** A partition with fewer blocks than the last one extends a coarsening. */
  lemma CoarseningSnoc(partitions: seq<seq<set<nat>>>, P: seq<set<nat>>, N: nat)
    requires Coarsening(partitions, N) && IsPartitionOf(P, N)
    requires |partitions| > 0 ==> |P| < |partitions[|partitions| - 1]|
    ensures Coarsening(partitions + [P], N)
  {
    var ps := partitions + [P];
    forall i | 0 <= i < |ps|
      ensures IsPartitionOf(ps[i], N)
    {
      if i < |partitions| {
        assert ps[i] == partitions[i];
      }
    }
    forall i | 0 < i < |ps|
      ensures |ps[i]| < |ps[i - 1]|
    {
      if i < |partitions| {
        assert ps[i] == partitions[i];
      }
    }
  }
}
