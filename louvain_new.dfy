/** The draft Louvain implementation of `Louvain_new.py`. Each community is
    an object that keeps its nodes, `_in` (the weight of the links inside
    it, every link counted from both of its ends and a self-loop as twice
    its weight) and `_tot` (the total degree of its nodes); a node is taken
    out of its community and put into the neighbouring community of
    strictly largest gain, computed by the full equation of Blondel et al.
    from those fields. The decisions are those of `Louvain.py`: the full
    equation reduces to its simplified gain. */
module LouvainNew {
  import opened Wrappers
  import opened WeightedGraphs
  import opened Communities
  import opened Partitions
  import opened Modularity
  import Classic = Louvain

  // ----- Community records -----

  /** What a `Community` records: its nodes, `_in` and `_tot`. */
  datatype Summary = Summary(nodes: set<nat>, inW: real, tot: real)

  /** `insert(x, x_degree, x_loop, k_x_in)` on a record. */
  function Inserted(s: Summary, x: nat, xDegree: real, xLoop: real, kxIn: real): Summary
  {
    Summary(s.nodes + {x}, s.inW + (2.0 * kxIn + xLoop), s.tot + xDegree)
  }

  /** `remove(x, x_degree, x_loop, k_x_in)` on a record. */
  function Removed(s: Summary, x: nat, xDegree: real, xLoop: real, kxIn: real): Summary
  {
    Summary(s.nodes - {x}, s.inW - (2.0 * kxIn + xLoop), s.tot - xDegree)
  }

  /** Inserting a node that is not in the community and removing it again
      with the same arguments restores the record. */
  lemma InsertThenRemove(s: Summary, x: nat, xDegree: real, xLoop: real, kxIn: real)
    requires x !in s.nodes
    ensures Removed(Inserted(s, x, xDegree, xLoop, kxIn), x, xDegree, xLoop, kxIn) == s
  {
    assert s.nodes + {x} - {x} == s.nodes;
  }

  /** Removing a member and inserting it again with the same arguments
      restores the record. */
  lemma RemoveThenInsert(s: Summary, x: nat, xDegree: real, xLoop: real, kxIn: real)
    requires x in s.nodes
    ensures Inserted(Removed(s, x, xDegree, xLoop, kxIn), x, xDegree, xLoop, kxIn) == s
  {
    assert s.nodes - {x} + {x} == s.nodes;
  }

  /** A community of the level (`Community`). */
  class Community {
    var nodes: set<nat>
    var inW: real
    var tot: real

    function State(): Summary
      reads this
    {
      Summary(nodes, inW, tot)
    }

    /** `Community(initial_node)`: the node alone, no weight yet. */
    constructor (initialNode: nat)
      ensures State() == Summary({initialNode}, 0.0, 0.0)
    {
      nodes, inW, tot := {initialNode}, 0.0, 0.0;
    }

    /** `insert`: `x` joins, bringing its degree to `_tot`, and its loops
        and twice its links into the community to `_in`. */
    method Insert(x: nat, xDegree: real, xLoop: real, kxIn: real)
      modifies this
      ensures State() == Inserted(old(State()), x, xDegree, xLoop, kxIn)
    {
      nodes := nodes + {x};
      inW := inW + (2.0 * kxIn + xLoop);
      tot := tot + xDegree;
    }

    /** `remove`: the inverse of `insert` for a member (`set.remove` raises
        `KeyError` for a non-member, which the level never passes). */
    method Remove(x: nat, xDegree: real, xLoop: real, kxIn: real)
      requires x in nodes
      modifies this
      ensures State() == Removed(old(State()), x, xDegree, xLoop, kxIn)
    {
      nodes := nodes - {x};
      inW := inW - (2.0 * kxIn + xLoop);
      tot := tot - xDegree;
    }
  }

  // ----- The sums a level keeps -----

  /** `loops[x]`: twice the weight of x's self-loop, 0 without one. */
  function Loop(G: WGraph, x: nat): real
  {
    2.0 * Adj(G, x, x)
  }

  /** `loops` over the first `j` listed edges: each self-loop adds twice
      its weight to its node. */
  function LoopUpTo(G: WGraph, j: nat, x: nat): real
    requires j <= |G.order|
  {
    if j == 0 then 0.0
    else LoopUpTo(G, j - 1, x) + (if G.order[j - 1] == Pair(x, x) then 2.0 * Wt(G.w, G.order[j - 1]) else 0.0)
  }

  /** `_in` of community `C` as the labels `lab` define it, over the first
      `j` nodes: each member brings its loops and its links to the other
      members. */
  function InSum(G: WGraph, lab: seq<nat>, C: nat, j: nat): real
    requires j <= |lab|
  {
    if j == 0 then 0.0
    else InSum(G, lab, C, j - 1) + (if lab[j - 1] == C then Loop(G, j - 1) + WeightTo(G, lab, j - 1, C, |lab|) else 0.0)
  }

  /** `_modularity_gain(x, C, k_x_in)`: the modularity of C with x in it
      minus that of C and x apart, where C has `_in` `inW` and `_tot` `tot`. */
  function BlondelGain(inW: real, tot: real, kx: real, kIn: real, m: real): real
    requires m != 0.0
  {
    var h := 2.0 * m;
    ((inW + 2.0 * kIn) / h - ((tot + kx) / h) * ((tot + kx) / h))
      - (inW / h - (tot / h) * (tot / h) - (kx / h) * (kx / h))
  }

  // ----- Lemmas about the sums -----

  /** The full equation of Blondel et al. is the simplified gain of
      `Louvain.py`: `_in` cancels, so both implementations rank the
      communities alike. */
  lemma BlondelIsGain(inW: real, tot: real, kx: real, kIn: real, m: real)
    requires m != 0.0
    ensures BlondelGain(inW, tot, kx, kIn, m) == Gain(kIn, tot, kx, m)
  {
    BlondelExpand(inW, tot, kx, kIn, 2.0 * m);
    DivDiff(kIn, tot * kx / (2.0 * m), m);
    Halve(kIn, m);
    ProductOfQuotients(tot, kx, m);
  }

  /** The terms of `_in` cancel and the square of the sum expands. */
  lemma BlondelExpand(inW: real, tot: real, kx: real, kIn: real, h: real)
    requires h != 0.0
    ensures ((inW + 2.0 * kIn) / h - ((tot + kx) / h) * ((tot + kx) / h))
              - (inW / h - (tot / h) * (tot / h) - (kx / h) * (kx / h))
         == (2.0 * kIn) / h - 2.0 * (tot / h) * (kx / h)
  {
  }

  /** Division by `h` distributes over a difference. */
  lemma DivDiff(x: real, y: real, h: real)
    requires h != 0.0
    ensures (x - y) / h == x / h - y / h
  {
  }

  /** Division by `h` is multiplication by its reciprocal. */
  lemma DivIsMul(x: real, h: real)
    requires h != 0.0
    ensures x / h == x * (1.0 / h)
  {
  }

  lemma InverseHalf(m: real)
    requires m != 0.0
    ensures 1.0 / m == 2.0 * (1.0 / (2.0 * m))
  {
  }

  /** `2x / 2m == x / m`. */
  lemma Halve(x: real, m: real)
    requires m != 0.0
    ensures (2.0 * x) / (2.0 * m) == x / m
  {
    DivIsMul(2.0 * x, 2.0 * m);
    DivIsMul(x, m);
    InverseHalf(m);
  }

  /** `2 (t / 2m)(k / 2m) == (t k / 2m) / m`. */
  lemma ProductOfQuotients(t: real, k: real, m: real)
    requires m != 0.0
    ensures 2.0 * (t / (2.0 * m)) * (k / (2.0 * m)) == (t * k / (2.0 * m)) / m
  {
    var h := 2.0 * m;
    var i := 1.0 / h;
    DivIsMul(t, h);
    DivIsMul(k, h);
    DivIsMul(t * k, h);
    DivIsMul(t * k / h, m);
    InverseHalf(m);
    assert (t * k / h) / m == (t * k * i) * (2.0 * i);
  }

  /** A self-loop is listed at most once, so the loop loop gives twice
      its weight. */
  lemma {:induction false} LoopTotal(G: WGraph, x: nat, j: nat)
    requires WellFormed(G) && j <= |G.order|
    ensures LoopUpTo(G, j, x) == if Pair(x, x) in G.order[..j] then Loop(G, x) else 0.0
  {
    if j > 0 {
      LoopTotal(G, x, j - 1);
      assert G.order[..j] == G.order[..j - 1] + [G.order[j - 1]];
      if G.order[j - 1] == Pair(x, x) {
        assert Pair(x, x) !in G.order[..j - 1];
        assert UPair(x, x) == Pair(x, x) && Pair(x, x) in G.w;
      }
    }
  }

  /** Relabelling `x` changes the weight from `z` into `C` only by x's
      own link to `z`. */
  lemma {:induction false} WeightToMove(G: WGraph, lab: seq<nat>, x: nat, b: nat, z: nat, C: nat, j: nat)
    requires j <= |lab| && x < |lab|
    ensures WeightTo(G, lab[x := b], z, C, j)
         == WeightTo(G, lab, z, C, j)
            + (if x < j && x != z then (if b == C then Adj(G, z, x) else 0.0) - (if lab[x] == C then Adj(G, z, x) else 0.0) else 0.0)
  {
    if j > 0 {
      WeightToMove(G, lab, x, b, z, C, j - 1);
    }
  }

  /** The links from `x` into `C`, read from the other side. */
  lemma AdjSymmetric(G: WGraph, x: nat, z: nat)
    ensures Adj(G, z, x) == Adj(G, x, z)
  {
    UPairSymmetric(x, z);
  }

  /** The prefix form of `InSumMove`. */
  lemma {:induction false} InSumMovePrefix(G: WGraph, lab: seq<nat>, x: nat, b: nat, C: nat, j: nat)
    requires j <= |lab| && x < |lab|
    ensures var n, W := |lab|, WeightTo(G, lab, x, C, |lab|);
      InSum(G, lab[x := b], C, j)
        == InSum(G, lab, C, j)
           + ((if b == C then WeightTo(G, lab, x, C, j) else 0.0) - (if lab[x] == C then WeightTo(G, lab, x, C, j) else 0.0))
           + (if x < j then (if b == C then Loop(G, x) + W else 0.0) - (if lab[x] == C then Loop(G, x) + W else 0.0) else 0.0)
  {
    if j > 0 {
      var z, lab' := j - 1, lab[x := b];
      InSumMovePrefix(G, lab, x, b, C, z);
      WeightToMove(G, lab, x, b, z, C, |lab|);
      if z == x {
        assert WeightTo(G, lab', x, C, |lab|) == WeightTo(G, lab, x, C, |lab|);
      } else {
        AdjSymmetric(G, x, z);
      }
    }
  }

  /** Moving `x` from its community to `b` takes its loops and twice its
      links into its old community out of that community's `_in`, and
      puts those into b's `_in`: exactly what `remove` and `insert` do. */
  lemma InSumMove(G: WGraph, lab: seq<nat>, x: nat, b: nat, C: nat)
    requires x < |lab|
    ensures var d := Loop(G, x) + 2.0 * WeightTo(G, lab, x, C, |lab|);
      InSum(G, lab[x := b], C, |lab|)
        == InSum(G, lab, C, |lab|) - (if lab[x] == C then d else 0.0) + (if b == C then d else 0.0)
  {
    InSumMovePrefix(G, lab, x, b, C, |lab|);
  }

  /** Under the identity labels no other node shares x's community. */
  lemma {:induction false} AloneWeight(G: WGraph, n: nat, x: nat, j: nat)
    requires j <= n
    ensures WeightTo(G, Range(n), x, x, j) == 0.0
  {
    if j > 0 {
      AloneWeight(G, n, x, j - 1);
    }
  }

  /** Under the identity labels `_in` of community C is C's loops. */
  lemma {:induction false} InSumRange(G: WGraph, n: nat, C: nat, j: nat)
    requires j <= n
    ensures InSum(G, Range(n), C, j) == if C < j then Loop(G, C) else 0.0
  {
    if j > 0 {
      InSumRange(G, n, C, j - 1);
      if j - 1 == C {
        AloneWeight(G, n, C, n);
      }
    }
  }

  // ----- The records of a level -----

  /** The members of each community. */
  function NodesOf(S: map<nat, Summary>): (D: map<nat, set<nat>>)
    ensures D.Keys == S.Keys
    ensures forall C :: C in S ==> D[C] == S[C].nodes
  {
    map C | C in S :: S[C].nodes
  }

  /** The records `S` describe the labels `lab` of the nodes 0..|lab|-1:
      the communities hold the nodes as the labels say, and each record's
      `_tot` and `_in` are the sums its members give. */
  ghost predicate Bookkept(G: WGraph, k: seq<real>, lab: seq<nat>, S: map<nat, Summary>)
  {
    && |k| == |lab|
    && IsCommunityMap(NodesOf(S), lab, |lab|)
    && (forall C :: C in S ==> S[C].tot == ComSum(k, lab, C, |lab|) && S[C].inW == InSum(G, lab, C, |lab|))
  }

  /** The records after a visit of `x`: removed from `Cx`, inserted into
      `b`, and `Cx` dropped if that left it empty. */
  function Moved(S: map<nat, Summary>, x: nat, Cx: nat, b: nat, kx: real, loop: real, inCx: real, inB: real): map<nat, Summary>
    requires Cx in S && b in S
  {
    var S1 := S[Cx := Removed(S[Cx], x, kx, loop, inCx)];
    var S2 := S1[b := Inserted(S1[b], x, kx, loop, inB)];
    if S2[Cx].nodes == {} then S2 - {Cx} else S2
  }

  /** On the members, a visit is the move of `Louvain.py`. */
  lemma MovedNodes(S: map<nat, Summary>, x: nat, Cx: nat, b: nat, kx: real, loop: real, inCx: real, inB: real)
    requires Cx in S && b in S
    ensures NodesOf(Moved(S, x, Cx, b, kx, loop, inCx, inB)) == MoveTo(NodesOf(S), x, Cx, b)
  {
    var D := NodesOf(S);
    var S1 := S[Cx := Removed(S[Cx], x, kx, loop, inCx)];
    var S2 := S1[b := Inserted(S1[b], x, kx, loop, inB)];
    var D1 := D[Cx := D[Cx] - {x}];
    var D2 := D1[b := D1[b] + {x}];
    assert NodesOf(S2) == D2;
  }

  /** The records each part of a visit changes. */
  lemma MovedRecord(S: map<nat, Summary>, x: nat, Cx: nat, b: nat, kx: real, loop: real, inCx: real, inB: real, C: nat)
    requires Cx in S && b in S && C in Moved(S, x, Cx, b, kx, loop, inCx, inB)
    ensures C in S
    ensures Moved(S, x, Cx, b, kx, loop, inCx, inB)[C].tot
         == S[C].tot - (if C == Cx then kx else 0.0) + (if C == b then kx else 0.0)
    ensures Moved(S, x, Cx, b, kx, loop, inCx, inB)[C].inW
         == S[C].inW - (if C == Cx then 2.0 * inCx + loop else 0.0) + (if C == b then 2.0 * inB + loop else 0.0)
  {
  }

  /** A visit keeps the records true to the labels: the node's degree
      and `2 k_x_in + loops` leave its old community's sums and join the
      new one's. */
  lemma MoveBookkept(G: WGraph, k: seq<real>, lab: seq<nat>, S: map<nat, Summary>, x: nat, b: nat)
    requires Bookkept(G, k, lab, S) && x < |lab| && b in S
    ensures lab[x] in S
    ensures var Cx, n := lab[x], |lab|;
      Bookkept(G, k, lab[x := b], Moved(S, x, Cx, b, k[x], Loop(G, x), WeightTo(G, lab, x, Cx, n), WeightTo(G, lab, x, b, n)))
  {
    var Cx, n := lab[x], |lab|;
    var inCx, inB := WeightTo(G, lab, x, Cx, n), WeightTo(G, lab, x, b, n);
    var S' := Moved(S, x, Cx, b, k[x], Loop(G, x), inCx, inB);
    MovedNodes(S, x, Cx, b, k[x], Loop(G, x), inCx, inB);
    MoveKeepsCommunities(NodesOf(S), lab, n, x, b);
    forall C | C in S'
      ensures S'[C].tot == ComSum(k, lab[x := b], C, n) && S'[C].inW == InSum(G, lab[x := b], C, n)
    {
      MovedSums(G, k, lab, S, x, b, C);
    }
  }

  /** The sums of one community after a visit are those its new members give. */
  lemma MovedSums(G: WGraph, k: seq<real>, lab: seq<nat>, S: map<nat, Summary>, x: nat, b: nat, C: nat)
    requires |k| == |lab| && x < |lab| && lab[x] in S && b in S
    requires forall D :: D in S ==> S[D].tot == ComSum(k, lab, D, |lab|) && S[D].inW == InSum(G, lab, D, |lab|)
    requires C in Moved(S, x, lab[x], b, k[x], Loop(G, x), WeightTo(G, lab, x, lab[x], |lab|), WeightTo(G, lab, x, b, |lab|))
    ensures var S' := Moved(S, x, lab[x], b, k[x], Loop(G, x), WeightTo(G, lab, x, lab[x], |lab|), WeightTo(G, lab, x, b, |lab|));
      S'[C].tot == ComSum(k, lab[x := b], C, |lab|) && S'[C].inW == InSum(G, lab[x := b], C, |lab|)
  {
    var Cx, n := lab[x], |lab|;
    MovedRecord(S, x, Cx, b, k[x], Loop(G, x), WeightTo(G, lab, x, Cx, n), WeightTo(G, lab, x, b, n), C);
    ComSumDrop(k, lab, x, C, n);
    ComSumMove(k, lab, x, b, C, n);
    InSumMove(G, lab, x, b, C);
  }

  /** The records `__init__` builds: node C alone in community C, with
      its loops as `_in` and its degree as `_tot`. */
  lemma InitialBookkept(G: WGraph, k: seq<real>, S: map<nat, Summary>)
    requires |k| == G.n
    requires forall C: nat :: C in S <==> C < G.n
    requires forall C :: C in S ==> S[C] == Summary({C}, Loop(G, C), k[C])
    ensures Bookkept(G, k, Range(G.n), S)
    ensures NodesOf(S) == Singletons(G.n)
  {
    var n := G.n;
    InitialState(n);
    assert NodesOf(S) == Singletons(n);
    forall C | C in S
      ensures S[C].tot == ComSum(k, Range(n), C, n) && S[C].inW == InSum(G, Range(n), C, n)
    {
      ComSumRange(k, C, n);
      InSumRange(G, n, C, n);
    }
  }

  /** The invariant of a level on its values: `k` holds the weighted
      degrees, `loops` twice the self-loop weights and `m` the total weight;
      the records hold the nodes as the labels `lab` say and keep their `_in`
      and `_tot` right; and either nothing has moved and every node is
      alone, or there are fewer communities than nodes. */
  ghost predicate LevelInvariant(G: WGraph, nodes: seq<nat>, k: seq<real>, loops: seq<real>, m: real,
                                 lab: seq<nat>, S: map<nat, Summary>, moved: bool)
  {
    && Classic.GraphState(G, nodes, k, m)
    && |loops| == G.n && (forall x :: 0 <= x < G.n ==> loops[x] == Loop(G, x))
    && |lab| == G.n
    && Bookkept(G, k, lab, S)
    && Classic.MergedState(moved, G.n, NodesOf(S), lab)
  }

  /** The state `__init__` builds meets the invariant, with nothing moved:
      every node alone in the community named after it. */
  lemma InitialInvariant(G: WGraph, k: seq<real>, loops: seq<real>, m: real, S: map<nat, Summary>)
    requires WellFormed(G) && m == Total(G)
    requires |k| == G.n && forall x :: 0 <= x < G.n ==> k[x] == Degree(G, x)
    requires |loops| == G.n && forall x :: 0 <= x < G.n ==> loops[x] == Loop(G, x)
    requires forall C: nat :: C in S <==> C < G.n
    requires forall C :: C in S ==> S[C] == Summary({C}, Loop(G, C), Degree(G, C))
    ensures LevelInvariant(G, Range(G.n), k, loops, m, Range(G.n), S, false)
  {
    InitialBookkept(G, k, S);
    InitialState(G.n);
  }

  /** A visit of `x` that puts it into community `b` keeps the invariant. */
  lemma VisitKeeps(G: WGraph, nodes: seq<nat>, k: seq<real>, loops: seq<real>, m: real,
                   lab: seq<nat>, S: map<nat, Summary>, moved: bool, x: nat, b: nat)
    requires LevelInvariant(G, nodes, k, loops, m, lab, S, moved) && x < G.n && b in S
    ensures lab[x] in S
    ensures LevelInvariant(G, nodes, k, loops, m, lab[x := b],
                           Moved(S, x, lab[x], b, k[x], loops[x], WeightTo(G, lab, x, lab[x], G.n), WeightTo(G, lab, x, b, G.n)),
                           moved || b != lab[x])
  {
    var n := G.n;
    MoveBookkept(G, k, lab, S, x, b);
    MovedNodes(S, x, lab[x], b, k[x], loops[x], WeightTo(G, lab, x, lab[x], n), WeightTo(G, lab, x, b, n));
    Classic.VisitState(n, lab, NodesOf(S), ComTotals(k, lab, n), k, moved, x, b);
  }

  /** Any order of the nodes will do for the sweeps. */
  lemma ReorderKeeps(G: WGraph, nodes: seq<nat>, nodes': seq<nat>, k: seq<real>, loops: seq<real>, m: real,
                     lab: seq<nat>, S: map<nat, Summary>, moved: bool)
    requires LevelInvariant(G, nodes, k, loops, m, lab, S, moved) && IsPermutation(nodes', G.n)
    ensures LevelInvariant(G, nodes', k, loops, m, lab, S, moved)
  {
  }

  /** A level has moved a node iff it has fewer communities than nodes,
      and a level that moved nothing keeps every node in its own
      community. */
  lemma MovedCount(G: WGraph, nodes: seq<nat>, k: seq<real>, loops: seq<real>, m: real,
                   lab: seq<nat>, S: map<nat, Summary>, moved: bool)
    requires LevelInvariant(G, nodes, k, loops, m, lab, S, moved)
    ensures moved <==> |S| < G.n
    ensures !moved ==> lab == Range(G.n)
  {
    assert NodesOf(S).Keys == S.Keys;
    SingletonCount(G.n);
  }

  /** No neighbour of `x` has a community that would give `x` a strictly
      greater gain than its own. */
  ghost predicate NodeSettled(G: WGraph, k: seq<real>, m: real, lab: seq<nat>, x: nat)
  {
    m != 0.0 && |k| == |lab| == G.n && x < G.n ==>
      forall y :: 0 <= y < G.n && UPair(x, y) in G.w ==>
        MoveGain(G, k, m, lab, x, lab[y]) <= MoveGain(G, k, m, lab, x, lab[x])
  }

  /** The first `i` nodes of `xs` are settled. */
  ghost predicate Settled(G: WGraph, k: seq<real>, m: real, lab: seq<nat>, xs: seq<nat>, i: nat)
    requires i <= |xs|
  {
    i == 0 || (Settled(G, k, m, lab, xs, i - 1) && NodeSettled(G, k, m, lab, xs[i - 1]))
  }

  lemma {:induction false} SettledBefore(G: WGraph, k: seq<real>, m: real, lab: seq<nat>, xs: seq<nat>, i: nat, j: nat)
    requires i <= |xs| && Settled(G, k, m, lab, xs, i) && j < i
    ensures NodeSettled(G, k, m, lab, xs[j])
    decreases i
  {
    if j < i - 1 {
      SettledBefore(G, k, m, lab, xs, i - 1, j);
    }
  }

  /** When a sweep over all the nodes settled each, the labelling is
      optimal. */
  lemma SettledAll(G: WGraph, k: seq<real>, m: real, lab: seq<nat>, nodes: seq<nat>)
    requires IsPermutation(nodes, G.n) && Settled(G, k, m, lab, nodes, |nodes|)
    ensures Optimal(G, k, m, lab)
  {
    if m != 0.0 && |k| == |lab| == G.n {
      forall x, y | 0 <= x < G.n && 0 <= y < G.n && UPair(x, y) in G.w
        ensures MoveGain(G, k, m, lab, x, lab[y]) <= MoveGain(G, k, m, lab, x, lab[x])
      {
        assert x in nodes;
        var j :| 0 <= j < |nodes| && nodes[j] == x;
        SettledBefore(G, k, m, lab, nodes, |nodes|, j);
      }
    }
  }

  /** Different names, different community objects. */
  predicate Distinct(coms: map<nat, Community>)
  {
    forall C, D :: C in coms && D in coms && C != D ==> coms[C] != coms[D]
  }

  /** One level of the method (`Level`) over the graph `graph`. The
      communities are named by the node each was created for. */
  class Level {
    const graph: WGraph
    var nodes: seq<nat>
    var nodeToCom: seq<nat>
    var communities: map<nat, Community>
    var k: seq<real>
    var loops: seq<real>
    var m: real
    var movedOnLevel: bool
    var totalModularityGain: real

    /** What the community objects record, kept beside them. */
    ghost var records: map<nat, Summary>

    /** `records` names the community objects' states; distinct names
        are distinct objects. */
    ghost predicate Synced()
      reads this`communities, this`records, communities.Values
    {
      && communities.Keys == records.Keys
      && Distinct(communities)
      && forall C :: C in communities ==> communities[C].State() == records[C]
    }

    /** The level invariant holds of the records, which the objects keep. */
    ghost predicate Valid()
      reads this, communities.Values
    {
      LevelInvariant(graph, nodes, k, loops, m, nodeToCom, records, movedOnLevel) && Synced()
    }

    /** `__init__`: one community per node, and the edge loop that sums
        the degrees, the loops and the total weight. */
    constructor (G: WGraph)
      requires WellFormed(G)
      ensures graph == G && Valid() && fresh(communities.Values)
      ensures !movedOnLevel && totalModularityGain == 0.0 && nodes == Range(G.n)
    {
      var n := G.n;
      var coms, kk, ll, mm := Setup(G);
      graph := G;
      nodes, nodeToCom, communities, k, loops, m := Range(n), Range(n), coms, kk, ll, mm;
      movedOnLevel, totalModularityGain := false, 0.0;
      records := map C | C in coms :: Summary({C}, Loop(G, C), Degree(G, C));
      new;
      InitialInvariant(G, kk, ll, mm, records);
      assert communities.Keys == records.Keys;
      assert forall C :: C in communities ==> communities[C].State() == records[C];
    }

    /** The first loop of `__init__`: a fresh community for each node. */
    static method NewCommunities(n: nat) returns (coms: map<nat, Community>)
      ensures forall C: nat :: C in coms <==> C < n
      ensures (forall C :: C in coms ==> fresh(coms[C])) && Distinct(coms)
      ensures forall C :: C in coms ==> coms[C].State() == Summary({C}, 0.0, 0.0)
    {
      coms := map[];
      for x := 0 to n
        invariant forall C: nat :: C in coms <==> C < x
        invariant (forall C :: C in coms ==> fresh(coms[C])) && Distinct(coms)
        invariant forall C :: C in coms ==> coms[C].State() == Summary({C}, 0.0, 0.0)
      {
        var c := new Community(x);
        coms := coms[x := c];
      }
    }

    /** One pass of the edge loop of `__init__`, for the i-th edge {x, y}
        of weight w: both ends' degrees and communities' `_tot` grow by w,
        and a self-loop adds 2w to the loops and to `_in`. */
    static method AddEdge(G: WGraph, coms: map<nat, Community>, i: nat, k: seq<real>, loops: seq<real>)
      returns (k': seq<real>, loops': seq<real>)
      requires i < |G.order| && G.order[i].lo <= G.order[i].hi < G.n && G.order[i] in G.w
      requires (forall C: nat :: C in coms <==> C < G.n) && Distinct(coms)
      requires |k| == G.n && forall x :: 0 <= x < G.n ==> k[x] == DegreeUpTo(G, i, x)
      requires |loops| == G.n && forall x :: 0 <= x < G.n ==> loops[x] == LoopUpTo(G, i, x)
      requires forall C :: C in coms ==> coms[C].nodes == {C} && coms[C].inW == loops[C] && coms[C].tot == k[C]
      modifies coms.Values
      ensures |k'| == G.n && forall x :: 0 <= x < G.n ==> k'[x] == DegreeUpTo(G, i + 1, x)
      ensures |loops'| == G.n && forall x :: 0 <= x < G.n ==> loops'[x] == LoopUpTo(G, i + 1, x)
      ensures forall C :: C in coms ==> coms[C].nodes == {C} && coms[C].inW == loops'[C] && coms[C].tot == k'[C]
    {
      var e := G.order[i];
      var x, y, wt := e.lo, e.hi, G.w[e];
      k' := k[x := k[x] + wt];
      k' := k'[y := k'[y] + wt];
      loops' := loops;
      var cx, cy := coms[x], coms[y];
      assert cx == cy <==> x == y;
      cx.tot := cx.tot + wt;
      cy.tot := cy.tot + wt;
      if cx == cy {
        cx.inW := cx.inW + 2.0 * wt;
        loops' := loops[x := loops[x] + 2.0 * wt];
      }
    }

    /** The body of `__init__`: a fresh community per node, then per edge
        its weight added to both ends' degrees and communities' `_tot`, and
        for a self-loop (both ends in one community) twice its weight to
        the loops and `_in`. */
    static method Setup(G: WGraph) returns (coms: map<nat, Community>, k: seq<real>, loops: seq<real>, m: real)
      requires WellFormed(G)
      ensures (forall C :: C in coms ==> fresh(coms[C])) && Distinct(coms)
      ensures forall C: nat :: C in coms <==> C < G.n
      ensures forall C :: C in coms ==> coms[C].State() == Summary({C}, Loop(G, C), Degree(G, C))
      ensures |k| == G.n && forall x :: 0 <= x < G.n ==> k[x] == Degree(G, x)
      ensures |loops| == G.n && forall x :: 0 <= x < G.n ==> loops[x] == Loop(G, x)
      ensures m == Total(G)
    {
      var n := G.n;
      coms := NewCommunities(n);
      k, loops, m := seq(n, _ => 0.0), seq(n, _ => 0.0), 0.0;
      for i := 0 to |G.order|
        invariant forall C: nat :: C in coms <==> C < n
        invariant (forall C :: C in coms ==> fresh(coms[C])) && Distinct(coms)
        invariant |k| == n && forall x :: 0 <= x < n ==> k[x] == DegreeUpTo(G, i, x)
        invariant |loops| == n && forall x :: 0 <= x < n ==> loops[x] == LoopUpTo(G, i, x)
        invariant forall C :: C in coms ==> coms[C].nodes == {C} && coms[C].inW == loops[C] && coms[C].tot == k[C]
        invariant m == TotalOf(G.order, G.w, i)
      {
        k, loops := AddEdge(G, coms, i, k, loops);
        m := m + G.w[G.order[i]];
      }
      forall x | 0 <= x < n
        ensures LoopUpTo(G, |G.order|, x) == Loop(G, x)
      {
        LoopTotal(G, x, |G.order|);
        assert G.order[..|G.order|] == G.order;
        if Pair(x, x) !in G.order {
          assert UPair(x, x) !in G.w;
        }
      }
    }
  
    /** No node has a neighbouring community it would strictly gain by
        joining: the state a sweep without moves leaves behind. */
    ghost predicate LocalOptimum()
      reads this
    {
      Optimal(graph, k, m, nodeToCom)
    }

    /** The neighbour loop of `cluster` for `x`, taken out of its
        community: starting from x's own community, each neighbour's
        community other than x's replaces the best so far when its gain,
        computed by `_modularity_gain` from the community's `_in` and
        `_tot`, is strictly greater; `improved` records such a
        replacement (`moved_node`). */
    method BestCommunity(x: nat, kxIn: map<nat, real>, costRemoval: real) returns (bestC: nat, bestGain: real, improved: bool)
      requires |k| == |nodeToCom| == graph.n && m != 0.0 && x < graph.n
      requires forall y :: 0 <= y < graph.n ==> nodeToCom[y] in communities
      requires forall C :: C in kxIn <==> C == nodeToCom[x] || Touches(graph, nodeToCom, x, C, graph.n)
      requires forall C :: C in kxIn ==> kxIn[C] == WeightTo(graph, nodeToCom, x, C, graph.n)
      requires forall C :: C in communities ==> communities[C].tot == ComSum(k[x := 0.0], nodeToCom, C, graph.n)
      requires costRemoval == MoveGain(graph, k, m, nodeToCom, x, nodeToCom[x])
      ensures bestC in communities && (bestC == nodeToCom[x] || Touches(graph, nodeToCom, x, bestC, graph.n))
      ensures bestGain == MoveGain(graph, k, m, nodeToCom, x, bestC)
      ensures improved <==> bestC != nodeToCom[x]
      ensures improved ==> bestGain > costRemoval
      ensures forall y :: 0 <= y < graph.n && UPair(x, y) in graph.w ==> MoveGain(graph, k, m, nodeToCom, x, nodeToCom[y]) <= bestGain
    {
      var n, lab := graph.n, nodeToCom;
      var Cx := lab[x];
      bestGain, bestC, improved := costRemoval, Cx, false;
      var visited := {Cx};
      for y := 0 to n
        invariant bestC in communities && (bestC == Cx || Touches(graph, lab, x, bestC, n))
        invariant bestGain == MoveGain(graph, k, m, lab, x, bestC)
        invariant bestGain >= costRemoval
        invariant improved <==> bestC != Cx
        invariant improved ==> bestGain > costRemoval
        invariant forall z :: 0 <= z < y && UPair(x, z) in graph.w ==> MoveGain(graph, k, m, lab, x, lab[z]) <= bestGain
      {
        if UPair(x, y) in graph.w {
          var Cy := lab[y];
          if Cy !in visited {
            TouchesAt(graph, lab, x, y, n);
            var c := communities[Cy];
            var newGain := BlondelGain(c.inW, c.tot, k[x], kxIn[Cy], m);
            BlondelIsGain(c.inW, c.tot, k[x], kxIn[Cy], m);
            if newGain > bestGain {
              bestGain, bestC, improved := newGain, Cy, true;
            }
          }
        }
      }
    }

    /** One pass of the node loop of `cluster` for `x`: take x out of its
        community, put it into the best one `BestCommunity` finds, add the
        gain to the running total and delete the old community if that
        emptied it. */
    method Visit(x: nat) returns (moved: bool)
      requires Valid() && m != 0.0 && x < graph.n
      modifies this, communities.Values
      ensures Valid()
      ensures forall C :: C in communities ==> C in old(communities) && communities[C] == old(communities[C])
      ensures nodes == old(nodes) && k == old(k) && m == old(m) && loops == old(loops)
      ensures nodeToCom == old(nodeToCom)[x := nodeToCom[x]]
      ensures moved <==> nodeToCom[x] != old(nodeToCom[x])
      ensures movedOnLevel == (old(movedOnLevel) || moved)
      ensures moved ==> Touches(graph, old(nodeToCom), x, nodeToCom[x], graph.n)
      ensures var lab, b := old(nodeToCom), nodeToCom[x];
        && (moved ==> MoveGain(graph, k, m, lab, x, b) > MoveGain(graph, k, m, lab, x, lab[x]))
        && (forall y :: 0 <= y < graph.n && UPair(x, y) in graph.w ==>
              MoveGain(graph, k, m, lab, x, lab[y]) <= MoveGain(graph, k, m, lab, x, b))
        && totalModularityGain == old(totalModularityGain)
             + (MoveGain(graph, k, m, lab, x, b) - MoveGain(graph, k, m, lab, x, lab[x]))
    {
      var lab := nodeToCom;
      ghost var S, nodes0, k0, loops0, m0, moved0 := records, nodes, k, loops, m, movedOnLevel;
      assert LevelInvariant(graph, nodes0, k0, loops0, m0, lab, S, moved0);
      var kIn, costRemoval, bestC, bestGain, improved := Choose(x);
      Attach(x, bestC, kIn, improved, bestGain - costRemoval);
      moved := improved;
      VisitKeeps(graph, nodes0, k0, loops0, m0, lab, S, moved0, x, bestC);
      assert records == Moved(S, x, lab[x], bestC, k0[x], loops0[x], WeightTo(graph, lab, x, lab[x], graph.n), kIn);
    }

    /** One iteration of the `for x in self.nodes` loop of `cluster`:
        visit the `i`-th node. While no node has moved (`movedBefore` is
        false), the labels stay `lab0` and every node visited so far is
        settled. */
    method SweepStep(i: nat, movedBefore: bool, ghost lab0: seq<nat>) returns (movedNode: bool)
      requires Valid() && m != 0.0 && i < graph.n
      requires movedBefore ==> movedOnLevel
      requires !movedBefore ==> nodeToCom == lab0 && Settled(graph, k, m, lab0, nodes, i)
      modifies this, communities.Values
      ensures Valid()
      ensures forall C :: C in communities ==> C in old(communities) && communities[C] == old(communities[C])
      ensures nodes == old(nodes) && k == old(k) && m == old(m)
      ensures movedOnLevel == (old(movedOnLevel) || movedNode)
      ensures movedBefore ==> movedNode
      ensures !movedNode ==> nodeToCom == lab0 && Settled(graph, k, m, lab0, nodes, i + 1)
    {
      ghost var lab := nodeToCom;
      var movedX := Visit(nodes[i]);
      movedNode := movedBefore || movedX;
      if !movedNode {
        assert nodeToCom == lab;
        assert NodeSettled(graph, k, m, lab, nodes[i]);
      }
    }

    /** One pass of the `for x in self.nodes` loop of `cluster`; it
        reports whether any node moved (`moved_node`). */
    method Sweep() returns (movedNode: bool)
      requires Valid() && m != 0.0
      modifies this, communities.Values
      ensures Valid()
      ensures forall C :: C in communities ==> C in old(communities) && communities[C] == old(communities[C])
      ensures nodes == old(nodes) && k == old(k) && m == old(m)
      ensures movedOnLevel == (old(movedOnLevel) || movedNode)
      ensures !movedNode ==> nodeToCom == old(nodeToCom)
      ensures !movedNode ==> LocalOptimum()
    {
      movedNode := false;
      ghost var lab0 := nodeToCom;
      for i := 0 to graph.n
        invariant Valid() && m != 0.0
        invariant forall C :: C in communities ==> C in old(communities) && communities[C] == old(communities[C])
        invariant nodes == old(nodes) && k == old(k) && m == old(m)
        invariant movedOnLevel == (old(movedOnLevel) || movedNode)
        invariant !movedNode ==> nodeToCom == lab0 && Settled(graph, k, m, lab0, nodes, i)
      {
        movedNode := SweepStep(i, movedNode, lab0);
      }
      if !movedNode {
        SettledAll(graph, k, m, lab0, nodes);
      }
    }

    /** `cluster`: nothing to do on an edgeless graph; a graph whose edge
        weights add up to 0 fails with `ZeroDivisionError` at the first
        gain; otherwise shuffle the nodes and sweep until a sweep moves
        nothing (or `fuel` sweeps are done). A level moved a node iff it
        ends with fewer communities than nodes. */
    method Cluster(fuel: nat) returns (err: Option<Error>, converged: bool)
      requires Valid() && !movedOnLevel
      modifies this, communities.Values
      ensures Valid()
      ensures err.Some? <==> |graph.order| > 0 && m == 0.0
      ensures err.Some? ==> err.value == ZeroDivisionError
      ensures movedOnLevel <==> |communities| < graph.n
      ensures !movedOnLevel ==> nodeToCom == Range(graph.n)
      ensures |graph.order| == 0 ==> !movedOnLevel
      ensures converged ==> LocalOptimum()
    {
      if |graph.order| == 0 {
        CountCommunities();
        return None, true;
      }
      if m == 0.0 {
        CountCommunities();
        return Some(ZeroDivisionError), false;
      }
      Shuffle();
      err, converged := None, false;
      var sweep := 0;
      while sweep < fuel
        invariant Valid() && m != 0.0 && |graph.order| > 0
        invariant err.None? && !converged
        invariant forall C :: C in communities ==> C in old(communities) && communities[C] == old(communities[C])
        decreases fuel - sweep
      {
        var movedNode := Sweep();
        if !movedNode {
          converged := true;
          break;
        }
        sweep := sweep + 1;
      }
      CountCommunities();
    }

    /** `random.shuffle(self.nodes)`: the sweeps visit the nodes in an
        arbitrary order. */
    method Shuffle()
      requires Valid()
      modifies this`nodes
      ensures Valid() && IsPermutation(nodes, graph.n)
    {
      var shuffled := AnyOrder(graph.n);
      ReorderKeeps(graph, nodes, shuffled, k, loops, m, nodeToCom, records, movedOnLevel);
      nodes := shuffled;
    }

    /** Some order of the nodes `0 .. n-1`, chosen freely. */
    static method AnyOrder(n: nat) returns (order: seq<nat>)
      ensures IsPermutation(order, n)
    {
      InitialState(n);
      order :| IsPermutation(order, n);
    }

    /** The nodes of each community (`part` in `run`). */
    method CommunityNodes() returns (D: map<nat, set<nat>>)
      requires Synced()
      ensures D == NodesOf(records)
    {
      D := map C | C in communities :: communities[C].nodes;
      assert forall C :: C in communities ==> communities[C].nodes == records[C].nodes;
    }

    /** What a level hands on: its communities are a community map of its
        labels, and it moved a node iff it has fewer of them than nodes. */
    lemma Outcomes()
      requires Valid()
      ensures IsCommunityMap(NodesOf(records), nodeToCom, graph.n)
      ensures movedOnLevel <==> |NodesOf(records)| < graph.n
      ensures !movedOnLevel ==> NodesOf(records) == Singletons(graph.n)
    {
      MovedCount(graph, nodes, k, loops, m, nodeToCom, records, movedOnLevel);
    }

    /** The number of communities tells whether a node moved. */
    lemma CountCommunities()
      requires Valid()
      ensures movedOnLevel <==> |communities| < graph.n
      ensures !movedOnLevel ==> nodeToCom == Range(graph.n)
    {
      MovedCount(graph, nodes, k, loops, m, nodeToCom, records, movedOnLevel);
      assert communities.Keys == records.Keys;
    }

    /** The visit of `x` up to the choice: the weights of x's links to the
        communities (`_weight_sums_to_communities`), x taken out of its
        community, and the neighbouring community of largest gain, with
        `kIn` the weight of x's links into it. */
    method Choose(x: nat) returns (kIn: real, costRemoval: real, bestC: nat, bestGain: real, improved: bool)
      requires Valid() && m != 0.0 && x < graph.n
      modifies this, communities[nodeToCom[x]]
      ensures Synced()
      ensures nodes == old(nodes) && nodeToCom == old(nodeToCom) && communities == old(communities)
      ensures k == old(k) && loops == old(loops) && m == old(m)
      ensures movedOnLevel == old(movedOnLevel) && totalModularityGain == old(totalModularityGain)
      ensures nodeToCom[x] in old(records) && bestC in communities
      ensures records == old(records)[nodeToCom[x] := Removed(old(records)[nodeToCom[x]], x, k[x], loops[x],
                                                               WeightTo(graph, nodeToCom, x, nodeToCom[x], graph.n))]
      ensures kIn == WeightTo(graph, nodeToCom, x, bestC, graph.n)
      ensures bestC == nodeToCom[x] || Touches(graph, nodeToCom, x, bestC, graph.n)
      ensures costRemoval == MoveGain(graph, k, m, nodeToCom, x, nodeToCom[x])
      ensures bestGain == MoveGain(graph, k, m, nodeToCom, x, bestC)
      ensures improved <==> bestC != nodeToCom[x]
      ensures improved ==> bestGain > costRemoval
      ensures forall y :: 0 <= y < graph.n && UPair(x, y) in graph.w ==> MoveGain(graph, k, m, nodeToCom, x, nodeToCom[y]) <= bestGain
    {
      var kxIn := Classic.Level.WeightSumsToCommunities(graph, nodeToCom, x);
      costRemoval := Detach(x, kxIn);
      bestC, bestGain, improved := BestCommunity(x, kxIn, costRemoval);
      kIn := kxIn[bestC];
    }

    /** The start of a visit of `x`: `remove` it from its community and
        compute `cost_removal`, the gain of putting it back. Afterwards the
        `_tot` of every community is its total without x. */
    method Detach(x: nat, kxIn: map<nat, real>) returns (costRemoval: real)
      requires Synced() && Bookkept(graph, k, nodeToCom, records)
      requires |nodeToCom| == |loops| == graph.n && m != 0.0 && x < graph.n
      requires forall C :: C in kxIn <==> C == nodeToCom[x] || Touches(graph, nodeToCom, x, C, graph.n)
      requires forall C :: C in kxIn ==> kxIn[C] == WeightTo(graph, nodeToCom, x, C, graph.n)
      modifies this, communities[nodeToCom[x]]
      ensures Synced()
      ensures nodes == old(nodes) && nodeToCom == old(nodeToCom) && communities == old(communities)
      ensures k == old(k) && loops == old(loops) && m == old(m)
      ensures movedOnLevel == old(movedOnLevel) && totalModularityGain == old(totalModularityGain)
      ensures nodeToCom[x] in old(records)
      ensures records == old(records)[nodeToCom[x] := Removed(old(records)[nodeToCom[x]], x, k[x], loops[x], kxIn[nodeToCom[x]])]
      ensures forall y :: 0 <= y < graph.n ==> nodeToCom[y] in communities
      ensures forall C :: C in communities ==> communities[C].tot == ComSum(k[x := 0.0], nodeToCom, C, graph.n)
      ensures costRemoval == MoveGain(graph, k, m, nodeToCom, x, nodeToCom[x])
    {
      var n, lab := graph.n, nodeToCom;
      var Cx := lab[x];
      TakeOut(x, kxIn[Cx]);
      var cx := communities[Cx];
      forall C | C in communities
        ensures communities[C].tot == ComSum(k[x := 0.0], lab, C, n)
      {
        ComSumDrop(k, lab, x, C, n);
      }
      costRemoval := BlondelGain(cx.inW, cx.tot, k[x], kxIn[Cx], m);
      BlondelIsGain(cx.inW, cx.tot, k[x], kxIn[Cx], m);
    }

    /** `remove` of `x` from its community, with `kIn` the weight of its
        links into it. */
    method TakeOut(x: nat, kIn: real)
      requires Synced() && x < |nodeToCom| && x < |k| && x < |loops| && nodeToCom[x] in communities
      requires x in communities[nodeToCom[x]].nodes
      modifies this, communities[nodeToCom[x]]
      ensures Synced()
      ensures nodes == old(nodes) && nodeToCom == old(nodeToCom) && communities == old(communities)
      ensures k == old(k) && loops == old(loops) && m == old(m)
      ensures movedOnLevel == old(movedOnLevel) && totalModularityGain == old(totalModularityGain)
      ensures records == old(records)[nodeToCom[x] := Removed(old(records)[nodeToCom[x]], x, k[x], loops[x], kIn)]
    {
      var Cx := nodeToCom[x];
      var cx := communities[Cx];
      cx.Remove(x, k[x], loops[x], kIn);
      records := records[Cx := Removed(records[Cx], x, k[x], loops[x], kIn)];
    }

    /** The end of a visit of `x`: `insert` it into community `b`, then
        `Settle` the labels, flags and the old community. */
    method Attach(x: nat, b: nat, kIn: real, improved: bool, delta: real)
      requires Synced() && x < |nodeToCom| && x < |k| && x < |loops|
      requires nodeToCom[x] in communities && b in communities
      modifies this, communities[b]
      ensures Synced()
      ensures nodes == old(nodes) && k == old(k) && loops == old(loops) && m == old(m)
      ensures nodeToCom == old(nodeToCom)[x := b]
      ensures movedOnLevel == (old(movedOnLevel) || improved)
      ensures totalModularityGain == old(totalModularityGain) + delta
      ensures forall C :: C in communities ==> C in old(communities) && communities[C] == old(communities[C])
      ensures var Cx := old(nodeToCom[x]);
              var R := old(records)[b := Inserted(old(records)[b], x, k[x], loops[x], kIn)];
              records == if R[Cx].nodes == {} then R - {Cx} else R
    {
      var cb := communities[b];
      cb.Insert(x, k[x], loops[x], kIn);
      records := records[b := Inserted(records[b], x, k[x], loops[x], kIn)];
      Settle(x, b, improved, delta);
    }

    /** After the insertion: relabel `x` as `b`, record a move and the gain
        `delta`, and delete x's old community if that is now empty. */
    method Settle(x: nat, b: nat, improved: bool, delta: real)
      requires Synced() && x < |nodeToCom| && nodeToCom[x] in communities
      modifies this
      ensures Synced()
      ensures nodes == old(nodes) && k == old(k) && loops == old(loops) && m == old(m)
      ensures nodeToCom == old(nodeToCom)[x := b]
      ensures movedOnLevel == (old(movedOnLevel) || improved)
      ensures totalModularityGain == old(totalModularityGain) + delta
      ensures forall C :: C in communities ==> C in old(communities) && communities[C] == old(communities[C])
      ensures var Cx := old(nodeToCom[x]);
              records == if old(records)[Cx].nodes == {} then old(records) - {Cx} else old(records)
    {
      var Cx := nodeToCom[x];
      var cx := communities[Cx];
      nodeToCom := nodeToCom[x := b];
      if improved {
        movedOnLevel := true;
      }
      totalModularityGain := totalModularityGain + delta;
      if |cx.nodes| == 0 {
        communities := communities - {Cx};
        records := records - {Cx};
      }
    }
  }

  // ----- The driver -----

  /** `modularity` on a list of parts that covers the nodes: no node lacks
      a part id, so it fails exactly when the total weight is 0. */
  lemma CoveredOutcome(G: WGraph, parts: seq<seq<nat>>)
    requires Covers(parts, G.n)
    ensures Labelled(PartIds(AsList(parts), G.n), G.n)
    ensures Outcome(G, PartIds(AsList(parts), G.n)) ==
      if Total(G) == 0.0 then Failure(ZeroDivisionError) else Success(ModularityOf(G, PartIds(AsList(parts), G.n)))
  {
    var lab := PartIds(AsList(parts), G.n);
    forall x | 0 <= x < G.n
      ensures x in lab
    {
      assert Owner(parts, x) >= 0;
    }
  }

  /** With every node its own part, no edge joins two distinct nodes of
      one part. */
  lemma {:induction false} UnitsNoInner(G: WGraph, j: nat)
    requires WellFormed(G) && Covers(Units(G.n), G.n) && j <= |G.order|
    ensures InnerUpTo(G, Units(G.n), j) == 0.0
  {
    if j > 0 {
      UnitsNoInner(G, j - 1);
      var e := G.order[j - 1];
      var a, b := Owner(Units(G.n), e.lo), Owner(Units(G.n), e.hi);
      assert e in G.w;
      assert e.lo in Units(G.n)[a] && e.hi in Units(G.n)[b];
    }
  }

  /** What one iteration of the `run` loop hands back: the communities
      found as lists of the level's nodes (`part`), their modularity on
      the level's graph (`mod`), the next level's graph with the original
      nodes of its supernodes and `moved_on_level`, and the level's
      communities and labels as `cluster` left them, with whether its
      sweeps came to rest. */
  datatype LevelOutcome = LevelOutcome(parts: seq<seq<nat>>, modularity: real, next: WGraph,
                                       nextMembers: seq<seq<nat>>, moved: bool,
                                       communities: map<nat, set<nat>>, lab: seq<nat>, converged: bool)

  /** `a` is what `run` records after clustering the level `H` (whose
      supernodes hold `members`): the level ended with the communities
      `a.communities` labelled by `a.lab`, locally optimal if its sweeps
      came to rest and all singletons if nothing moved; `a.parts` lists
      them in key order, covering and partitioning H's nodes; `modularity`
      returned `a.modularity` for them; `a.next` is their contraction with
      merged nodes' edges counted twice, and `a.nextMembers` lists the
      original nodes of each of its supernodes. */
  ghost predicate Found(H: WGraph, members: seq<seq<nat>>, a: LevelOutcome)
  {
    && WellFormed(H) && |members| == H.n
    && IsCommunityMap(a.communities, a.lab, H.n) && a.parts == Parts(a.communities, H.n)
    && (a.converged ==> LocallyOptimal(H, a.lab))
    && (a.moved <==> |a.parts| < H.n)
    && (!a.moved ==> a.communities == Singletons(H.n) && a.lab == Range(H.n))
    && InRange(a.parts, H.n) && Covers(a.parts, H.n) && IsPartitionOf(Sets(a.parts), H.n)
    && Outcome(H, PartIds(AsList(a.parts), H.n)) == Success(a.modularity)
    && ContractionOf(H, a.parts, true, a.next) && a.nextMembers == FlattenAll(members, a.parts)
  }

  /** The communities of a level, listed as parts of its nodes: they cover
      and partition the nodes, one part per community, and the original
      nodes of each again partition the original nodes. */
  lemma CommunityParts(members: seq<seq<nat>>, N: nat, D: map<nat, set<nat>>, lab: seq<nat>, n: nat)
    requires Supernodes(members, N) && |members| == n && IsCommunityMap(D, lab, n)
    ensures InRange(Parts(D, n), n) && Covers(Parts(D, n), n) && IsPartitionOf(Sets(Parts(D, n)), n)
    ensures |Parts(D, n)| == |D|
    ensures Supernodes(FlattenAll(members, Parts(D, n)), N)
  {
    KeyCount(D, n);
    PartsOfCommunities(D, lab, n);
    PartsPartition(D, lab, n);
    NextSupernodes(members, N, D, lab, n);
  }

  /** A new `Level` on `graph`, clustered: its communities `D` (the nodes
      of each), its labels, `moved_on_level` and whether its sweeps came
      to rest, or the `ZeroDivisionError` of a graph with edges of total
      weight 0. A level that moved nothing leaves every node alone, and
      one whose sweeps came to rest leaves no node a neighbouring
      community it would gain by joining. */
  method ClusterLevel(graph: WGraph, fuel: nat) returns (r: Result<(map<nat, set<nat>>, seq<nat>, bool, bool)>)
    requires WellFormed(graph)
    ensures r.Failure? <==> |graph.order| > 0 && Total(graph) == 0.0
    ensures r.Failure? ==> r.error == ZeroDivisionError
    ensures r.Success? ==> var (D, lab, moved, converged) := r.value;
      && IsCommunityMap(D, lab, graph.n) && (moved <==> |D| < graph.n) && |D| <= graph.n
      && (!moved ==> D == Singletons(graph.n) && lab == Range(graph.n))
      && (converged ==> LocallyOptimal(graph, lab))
  {
    var level := new Level(graph);
    var err, converged := level.Cluster(fuel);
    if err.Some? {
      return Failure(err.value);
    }
    var D := level.CommunityNodes();
    level.Outcomes();
    SingletonCount(graph.n);
    Classic.GraphStateDegrees(graph, level.nodes, level.k, level.m);
    return Success((D, level.nodeToCom, level.movedOnLevel, converged));
  }

  /** `_next_level_graph` of `Louvain_new.py`: supernode j holds the
      original nodes of part j, and the total weight grows by the weight
      of the edges joining two distinct nodes of one part, which ("loops
      count twice") are added once more. */
  method NextLevelGraph(G: WGraph, members: seq<seq<nat>>, parts: seq<seq<nat>>)
    returns (H: WGraph, hMembers: seq<seq<nat>>)
    requires WellFormed(G) && |members| == G.n
    requires InRange(parts, G.n) && Covers(parts, G.n)
    ensures ContractionOf(G, parts, true, H) && hMembers == FlattenAll(members, parts)
    ensures Total(H) == Total(G) + InnerUpTo(G, parts, |G.order|)
  {
    H, hMembers := Contract(G, members, parts, true);
  }

  /** One iteration of the `run` loop on `graph`, whose supernode s holds
      the original nodes `members[s]`: cluster a new level, take the
      modularity of its communities and contract them into the next
      level's graph, self-loops of merged nodes counted twice. It fails
      with `ZeroDivisionError` (in `cluster` or in `modularity`) exactly
      when the level's total weight is 0. The next level's supernodes
      again partition the original nodes, and a level moved a node iff it
      found fewer communities than it had nodes. */
  method LevelStep(graph: WGraph, members: seq<seq<nat>>, ghost N: nat, fuel: nat)
    returns (r: Result<LevelOutcome>)
    requires WellFormed(graph) && |members| == graph.n && Supernodes(members, N)
    ensures r.Failure? <==> Total(graph) == 0.0
    ensures r.Failure? ==> r.error == ZeroDivisionError
    ensures r.Success? ==> var a := r.value;
      && Found(graph, members, a) && Supernodes(a.nextMembers, N) && |a.parts| <= graph.n
      && Total(a.next) == Total(graph) + InnerUpTo(graph, a.parts, |graph.order|)
  {
    var c := ClusterLevel(graph, fuel);
    if c.Failure? {
      return Failure(c.error);
    }
    var (D, lab, moved, converged) := c.value;
    var n := graph.n;
    CommunityParts(members, N, D, lab, n);
    var parts := Parts(D, n);
    var mod := Modularity.Modularity(graph, AsList(parts));
    CoveredOutcome(graph, parts);
    if mod.Failure? {
      return Failure(mod.error);
    }
    var next, nextMembers := NextLevelGraph(graph, members, parts);
    return Success(LevelOutcome(parts, mod.value, next, nextMembers, moved, D, lab, converged));
  }

  /** Level 0 of `G`: `_level_zero_graph` (the graph rebuilt on singleton
      supernodes) and the modularity of its singletons, which `modularity`
      returned as `mod0`. */
  ghost predicate LevelZero(G: WGraph, graph0: WGraph, members0: seq<seq<nat>>, mod0: real)
  {
    && WellFormed(graph0) && graph0.n == G.n && members0 == Units(G.n)
    && Outcome(graph0, PartIds(AsList(Units(G.n)), G.n)) == Success(mod0)
  }

  /** Level i of a record for `G`: level 0 is `G` rebuilt on singleton
      supernodes; any later level i was found on level i - 1, where
      `outs[i - 1]` holds what was found, and the record holds its
      contraction, their members and their modularity as level i. Either
      way the supernodes of level i partition G's nodes. */
  ghost predicate Recorded(G: WGraph, graphs: seq<WGraph>, members: seq<seq<seq<nat>>>,
                           mods: seq<real>, outs: seq<LevelOutcome>, i: nat)
    requires i < |graphs| && |graphs| == |members| == |mods| == |outs| + 1
  {
    if i == 0 then
      LevelZero(G, graphs[0], members[0], mods[0]) && Supernodes(members[0], G.n)
    else
      && Found(graphs[i - 1], members[i - 1], outs[i - 1]) && Supernodes(members[i], G.n)
      && outs[i - 1].next == graphs[i] && outs[i - 1].nextMembers == members[i]
      && outs[i - 1].modularity == mods[i]
  }

  /** The levels recorded for `G`: level 0, and each further level found
      on the one before it. */
  ghost predicate Levels(G: WGraph, graphs: seq<WGraph>, members: seq<seq<seq<nat>>>,
                         mods: seq<real>, outs: seq<LevelOutcome>)
  {
    && |graphs| == |members| == |mods| == |outs| + 1
    && forall i :: 0 <= i < |graphs| ==> Recorded(G, graphs, members, mods, outs, i)
  }

  /** Level 0 alone is a record. */
  lemma LevelsZero(G: WGraph, graph0: WGraph, members0: seq<seq<nat>>, mod0: real)
    requires LevelZero(G, graph0, members0, mod0)
    ensures Levels(G, [graph0], [members0], [mod0], [])
  {
    UnitsPartition(G.n);
    assert Recorded(G, [graph0], [members0], [mod0], [], 0);
  }

  /** `Found` carries over to equal arguments. */
  lemma FoundCopy(H: WGraph, members: seq<seq<nat>>, a: LevelOutcome,
                  H': WGraph, members': seq<seq<nat>>, a': LevelOutcome)
    requires Found(H, members, a) && H' == H && members' == members && a' == a
    ensures Found(H', members', a')
  {
  }

  /** A record carries over to equal sequences. */
  lemma LevelsCopy(G: WGraph, graphs: seq<WGraph>, members: seq<seq<seq<nat>>>, mods: seq<real>,
                   outs: seq<LevelOutcome>, graphs': seq<WGraph>, members': seq<seq<seq<nat>>>,
                   mods': seq<real>, outs': seq<LevelOutcome>)
    requires Levels(G, graphs, members, mods, outs)
    requires graphs' == graphs && members' == members && mods' == mods && outs' == outs
    ensures Levels(G, graphs', members', mods', outs')
  {
  }

  /** A level already recorded stays recorded once another is appended. */
  lemma RecordedSnoc(G: WGraph, graphs: seq<WGraph>, members: seq<seq<seq<nat>>>, mods: seq<real>,
                     outs: seq<LevelOutcome>, a: LevelOutcome, i: nat)
    requires i < |graphs| && |graphs| == |members| == |mods| == |outs| + 1
    requires Recorded(G, graphs, members, mods, outs, i)
    ensures Recorded(G, graphs + [a.next], members + [a.nextMembers], mods + [a.modularity], outs + [a], i)
  {
    var gs, ms, mds, os := graphs + [a.next], members + [a.nextMembers], mods + [a.modularity], outs + [a];
    assert gs[i] == graphs[i] && ms[i] == members[i] && mds[i] == mods[i];
    if i != 0 {
      assert gs[i - 1] == graphs[i - 1] && ms[i - 1] == members[i - 1] && os[i - 1] == outs[i - 1];
      FoundCopy(graphs[i - 1], members[i - 1], outs[i - 1], gs[i - 1], ms[i - 1], os[i - 1]);
    }
  }

  /** What was found on the last level, appended, is recorded. */
  lemma RecordedLast(G: WGraph, graphs: seq<WGraph>, members: seq<seq<seq<nat>>>, mods: seq<real>,
                     outs: seq<LevelOutcome>, a: LevelOutcome)
    requires |graphs| == |members| == |mods| == |outs| + 1
    requires Found(graphs[|outs|], members[|outs|], a) && Supernodes(a.nextMembers, G.n)
    ensures Recorded(G, graphs + [a.next], members + [a.nextMembers], mods + [a.modularity], outs + [a], |graphs|)
  {
    var gs, ms, mds, os := graphs + [a.next], members + [a.nextMembers], mods + [a.modularity], outs + [a];
    var i, j := |graphs|, |outs|;
    assert i - 1 == j;
    assert gs[j] == graphs[j] && ms[j] == members[j] && os[j] == a;
    assert gs[i] == a.next && ms[i] == a.nextMembers && mds[i] == a.modularity;
    FoundCopy(graphs[j], members[j], a, gs[j], ms[j], os[j]);
  }

  /** Recording one more level found on the last keeps the record. */
  lemma LevelsSnoc(G: WGraph, graphs: seq<WGraph>, members: seq<seq<seq<nat>>>, mods: seq<real>,
                   outs: seq<LevelOutcome>, a: LevelOutcome)
    requires Levels(G, graphs, members, mods, outs)
    requires Found(graphs[|graphs| - 1], members[|members| - 1], a)
    requires Supernodes(a.nextMembers, G.n)
    ensures Levels(G, graphs + [a.next], members + [a.nextMembers], mods + [a.modularity], outs + [a])
  {
    var gs, ms, mds, os := graphs + [a.next], members + [a.nextMembers], mods + [a.modularity], outs + [a];
    forall i | 0 <= i < |gs|
      ensures Recorded(G, gs, ms, mds, os, i)
    {
      if i == |graphs| {
        RecordedLast(G, graphs, members, mods, outs, a);
      } else {
        RecordedSnoc(G, graphs, members, mods, outs, a, i);
      }
    }
  }

  /** What the record says of level i: its supernodes partition the
      original nodes, and unless it is the last, level i ended with the
      communities `outs[i]` names (locally optimal if its sweeps came to
      rest), level i + 1 is their contraction with merged nodes' edges
      counted twice, its supernodes hold the original nodes of theirs, and
      their modularity on level i is recorded for level i + 1. */
  lemma LevelAt(G: WGraph, graphs: seq<WGraph>, members: seq<seq<seq<nat>>>, mods: seq<real>,
                outs: seq<LevelOutcome>, i: nat)
    requires Levels(G, graphs, members, mods, outs) && i < |graphs|
    ensures WellFormed(graphs[i]) && |members[i]| == graphs[i].n && Supernodes(members[i], G.n)
    ensures i < |outs| ==> && Found(graphs[i], members[i], outs[i])
                           && outs[i].next == graphs[i + 1] && outs[i].nextMembers == members[i + 1]
                           && outs[i].modularity == mods[i + 1]
    ensures i < |outs| ==> var a := outs[i];
      && IsCommunityMap(a.communities, a.lab, graphs[i].n) && a.parts == Parts(a.communities, graphs[i].n)
      && (a.converged ==> LocallyOptimal(graphs[i], a.lab))
      && ContractionOf(graphs[i], a.parts, true, graphs[i + 1])
      && members[i + 1] == FlattenAll(members[i], a.parts)
      && Outcome(graphs[i], PartIds(AsList(a.parts), graphs[i].n)) == Success(mods[i + 1])
  {
    assert Recorded(G, graphs, members, mods, outs, i);
    if i < |outs| {
      var k := i + 1;
      assert k - 1 == i;
      assert Recorded(G, graphs, members, mods, outs, k);
    }
  }

  /** From level `start` on, every level has fewer supernodes than the
      one before it. */
  ghost predicate ShrinkingFrom(graphs: seq<WGraph>, start: nat)
  {
    forall i, j :: 0 <= i && start <= j < |graphs| && i + 1 == j ==> graphs[j].n < graphs[i].n
  }

  /** So from level `start` - 1 on, each level is smaller than every
      level before it. */
  lemma {:induction false} ShrinkingPairs(graphs: seq<WGraph>, start: nat, i: nat, j: nat)
    requires ShrinkingFrom(graphs, start) && i < j < |graphs| && start <= i + 1
    ensures graphs[j].n < graphs[i].n
    decreases j - i
  {
    if i + 1 != j {
      ShrinkingPairs(graphs, start, i + 1, j);
      assert graphs[i + 1].n < graphs[i].n;
    }
  }

  /** Level 0 of the input graph `G`: `_next_level_graph` on the
      singletons, which finds no two distinct nodes in one part and so
      keeps the weights, and the modularity of its singletons. */
  method LevelZeroOf(G: WGraph) returns (r: Result<(WGraph, seq<seq<nat>>, real)>)
    requires WellFormed(G)
    ensures r.Failure? <==> Total(G) == 0.0
    ensures r.Failure? ==> r.error == ZeroDivisionError
    ensures r.Success? ==> var (graph0, members0, mod0) := r.value;
      LevelZero(G, graph0, members0, mod0) && Total(graph0) == Total(G)
  {
    var N := G.n;
    var units := Units(N);
    UnitsPartition(N);
    var graph0, members0 := NextLevelGraph(G, units, units);
    UnitsNoInner(G, |G.order|);
    forall x | 0 <= x < N
      ensures members0[x] == [x]
    {
      FlattenUnits(N, units[x]);
    }
    var mod0 := Modularity.Modularity(graph0, AsList(units));
    CoveredOutcome(graph0, units);
    if mod0.Failure? {
      return Failure(mod0.error);
    }
    return Success((graph0, members0, mod0.value));
  }

  /** One iteration of the `run` loop on the levels recorded so far:
      `LevelStep` on the last level, whose outcome extends the record. */
  method Advance(G: WGraph, graphs: seq<WGraph>, members: seq<seq<seq<nat>>>, mods: seq<real>,
                 ghost outs: seq<LevelOutcome>, fuel: nat) returns (r: Result<LevelOutcome>)
    requires Levels(G, graphs, members, mods, outs)
    ensures r.Failure? <==> Total(graphs[|graphs| - 1]) == 0.0
    ensures r.Failure? ==> r.error == ZeroDivisionError
    ensures r.Success? ==> var a := r.value;
      && Levels(G, graphs + [a.next], members + [a.nextMembers], mods + [a.modularity], outs + [a])
      && (a.moved <==> a.next.n < graphs[|graphs| - 1].n) && a.next.n <= graphs[|graphs| - 1].n
  {
    var last := |graphs| - 1;
    LevelAt(G, graphs, members, mods, outs, last);
    var step := LevelStep(graphs[last], members[last], G.n, fuel);
    if step.Failure? {
      return Failure(step.error);
    }
    var a := step.value;
    LevelsSnoc(G, graphs, members, mods, outs, a);
    return Success(a);
  }

  /** The driver (`Louvain`): the graph of every level reached, the
      original nodes of each level's supernodes and one modularity per
      level, as `Levels` relates them; `levelOutcomes[i]` is what was
      found on level i. */
  class Louvain {
    const origGraph: WGraph
    var levelGraphs: seq<WGraph>
    var levelMembers: seq<seq<seq<nat>>>
    var levelMods: seq<real>
    ghost var levelOutcomes: seq<LevelOutcome>

    ghost predicate Valid()
      reads this
    {
      Levels(origGraph, levelGraphs, levelMembers, levelMods, levelOutcomes)
    }

    /** `Louvain(graph)`: `TypeError` for anything but an undirected
        graph; otherwise level 0 alone, whose modularity fails with
        `ZeroDivisionError` exactly when the total edge weight is 0. */
    static method Create(input: Input) returns (r: Result<Louvain>)
      requires !input.NotAGraph? ==> WellFormed(input.g)
      ensures r.Failure? <==> !input.UndirectedGraph? || Total(input.g) == 0.0
      ensures r.Failure? ==> r.error == if input.UndirectedGraph? then ZeroDivisionError else TypeError("input graph must be an undirected NetworkX graph")
      ensures r.Success? ==> var l := r.value;
        && fresh(l) && l.Valid() && l.origGraph == input.g && |l.levelGraphs| == 1
    {
      var checked := CheckInput(input);
      if checked.Failure? {
        return Failure(checked.error);
      }
      var zero := LevelZeroOf(checked.value);
      if zero.Failure? {
        return Failure(zero.error);
      }
      var (graph0, members0, mod0) := zero.value;
      var l := new Louvain(checked.value, graph0, members0, mod0);
      return Success(l);
    }

    /** The object `Create` hands out, with just level 0. */
    constructor (G: WGraph, graph0: WGraph, members0: seq<seq<nat>>, mod0: real)
      requires LevelZero(G, graph0, members0, mod0)
      ensures Valid() && origGraph == G && levelGraphs == [graph0] && levelMembers == [members0]
      ensures levelMods == [mod0] && levelOutcomes == []
    {
      LevelsZero(G, graph0, members0, mod0);
      origGraph := G;
      levelGraphs, levelMembers, levelMods, levelOutcomes := [graph0], [members0], [mod0], [];
    }

    /** `run`: cluster the last level's graph, record its communities'
        modularity and their contraction as a new level, and stop after
        the first level that moved no node. `fuel` bounds the sweeps of
        each level. The levels already recorded stay; every new level
        but the last came from a level that moved a node and so has fewer
        supernodes than the one before, and on success the last has as
        many as its predecessor; a level of total weight 0 stops the run
        with `ZeroDivisionError`. */
    method Run(fuel: nat) returns (r: Result<()>)
      requires Valid()
      modifies this
      ensures Valid()
      ensures old(levelGraphs) <= levelGraphs && old(levelMods) <= levelMods
      ensures ShrinkingFrom(levelGraphs[..|levelGraphs| - 1], old(|levelGraphs|))
      ensures r.Failure? ==> r.error == ZeroDivisionError && Total(levelGraphs[|levelGraphs| - 1]) == 0.0
      ensures r.Success? ==>
        |levelGraphs| > old(|levelGraphs|) && levelGraphs[|levelGraphs| - 1].n == levelGraphs[|levelGraphs| - 2].n
      ensures r.Success? ==> |levelOutcomes| > 0 && !levelOutcomes[|levelOutcomes| - 1].moved
    {
      ghost var graphs0, mods0 := levelGraphs, levelMods;
      while true
        invariant Valid() && Grew(graphs0, mods0, levelGraphs, levelMods)
        decreases levelGraphs[|levelGraphs| - 1].n
      {
        ghost var graphs, mods := levelGraphs, levelMods;
        ghost var lastN := graphs[|graphs| - 1].n;
        var step := RunStep(fuel);
        if step.Failure? {
          ShrinkingPrefix(graphs, |graphs0|);
          return Failure(step.error);
        }
        var a := step.value;
        GrewSnoc(graphs0, mods0, graphs, mods, a.next, a.modularity);
        assert levelGraphs == graphs + [a.next] && |levelGraphs| - 1 == |graphs| && |levelGraphs| - 2 == |graphs| - 1;
        if !a.moved {
          return Success(());
        }
      }
    }

    /** One iteration of the `run` loop: cluster the last level and
        record what it found as a new level, which is smaller than the
        last iff the last level moved a node. */
    method RunStep(fuel: nat) returns (r: Result<LevelOutcome>)
      requires Valid()
      modifies this
      ensures Valid()
      ensures r.Failure? ==> levelGraphs == old(levelGraphs) && levelMods == old(levelMods)
      ensures r.Failure? ==> r.error == ZeroDivisionError && Total(levelGraphs[|levelGraphs| - 1]) == 0.0
      ensures r.Success? ==> levelGraphs == old(levelGraphs) + [r.value.next] && levelMods == old(levelMods) + [r.value.modularity]
      ensures r.Success? ==> levelGraphs[..|levelGraphs| - 1] == old(levelGraphs)
      ensures r.Success? ==> levelOutcomes == old(levelOutcomes) + [r.value]
      ensures r.Success? ==> (r.value.moved <==> r.value.next.n < old(levelGraphs[|levelGraphs| - 1].n))
      ensures r.Success? ==> r.value.next.n <= old(levelGraphs[|levelGraphs| - 1].n)
    {
      var step := Advance(origGraph, levelGraphs, levelMembers, levelMods, levelOutcomes, fuel);
      if step.Failure? {
        return Failure(step.error);
      }
      var a := step.value;
      ghost var gs, ms := levelGraphs + [a.next], levelMembers + [a.nextMembers];
      ghost var mds, os := levelMods + [a.modularity], levelOutcomes + [a];
      levelGraphs, levelMembers := levelGraphs + [a.next], levelMembers + [a.nextMembers];
      levelMods, levelOutcomes := levelMods + [a.modularity], levelOutcomes + [a];
      LevelsCopy(origGraph, gs, ms, mds, os, levelGraphs, levelMembers, levelMods, levelOutcomes);
      return Success(a);
    }
  }

  /** The levels `graphs` with modularities `mods` extend the levels
      `graphs0` and `mods0`, and from there on shrink. */
  ghost predicate Grew(graphs0: seq<WGraph>, mods0: seq<real>, graphs: seq<WGraph>, mods: seq<real>)
  {
    graphs0 <= graphs && mods0 <= mods && ShrinkingFrom(graphs, |graphs0|)
  }

  /** One more level keeps the levels an extension; it keeps them
      shrinking if it is smaller than the last, and in any case the levels
      before it shrink. */
  lemma GrewSnoc(graphs0: seq<WGraph>, mods0: seq<real>, graphs: seq<WGraph>, mods: seq<real>, g: WGraph, q: real)
    requires Grew(graphs0, mods0, graphs, mods) && |graphs| > 0
    ensures graphs0 <= graphs + [g] && mods0 <= mods + [q] && |graphs + [g]| > |graphs0|
    ensures ShrinkingFrom((graphs + [g])[..|graphs|], |graphs0|)
    ensures (graphs + [g])[|graphs|] == g && (graphs + [g])[|graphs| - 1] == graphs[|graphs| - 1]
    ensures g.n < graphs[|graphs| - 1].n ==> Grew(graphs0, mods0, graphs + [g], mods + [q])
  {
    PrefixAppend(graphs0, graphs, g);
    PrefixAppend(mods0, mods, q);
    assert (graphs + [g])[..|graphs|] == graphs;
    if g.n < graphs[|graphs| - 1].n {
      ShrinkingSnoc(graphs, g, |graphs0|);
    }
  }

  /** A prefix of a sequence is a prefix of it extended. */
  lemma PrefixAppend<T>(s: seq<T>, t: seq<T>, x: T)
    requires s <= t
    ensures s <= t + [x]
  {
    assert (t + [x])[..|s|] == t[..|s|];
  }

  /** Dropping the last level keeps a run shrinking. */
  lemma ShrinkingPrefix(graphs: seq<WGraph>, start: nat)
    requires ShrinkingFrom(graphs, start) && |graphs| > 0
    ensures ShrinkingFrom(graphs[..|graphs| - 1], start)
  {
  }

  /** A level smaller than the last one extends the shrinking run. */
  lemma ShrinkingSnoc(graphs: seq<WGraph>, g: WGraph, start: nat)
    requires ShrinkingFrom(graphs, start) && |graphs| > 0 && g.n < graphs[|graphs| - 1].n
    ensures ShrinkingFrom(graphs + [g], start)
  {
    var longer := graphs + [g];
    forall i, j | 0 <= i && start <= j < |longer| && i + 1 == j
      ensures longer[j].n < longer[i].n
    {
      if j == |graphs| {
        assert i == |graphs| - 1;
      } else {
        assert longer[j] == graphs[j] && longer[i] == graphs[i];
      }
    }
  }

}
