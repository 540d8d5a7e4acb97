/** Undirected weighted graphs as the Louvain code sees them through
    networkx: the nodes are 0..n-1 (a node stands for its position in the
    graph's node order), the edges are kept in insertion order, and each
    edge carries its `weight` attribute (an edge read without one has weight
    1.0, so every edge here has a weight). Weights are exact reals. */
module WeightedGraphs {
  import opened Wrappers

  /** An unordered pair of nodes, smaller node first; `lo == hi` is a self-loop. */
  datatype Pair = Pair(lo: nat, hi: nat)

  function UPair(x: nat, y: nat): (p: Pair)
    ensures p.lo <= p.hi
    ensures {p.lo, p.hi} == {x, y}
  {
    if x <= y then Pair(x, y) else Pair(y, x)
  }

  lemma UPairSymmetric(x: nat, y: nat)
    ensures UPair(x, y) == UPair(y, x)
  {
  }

  /** `order` lists the edges as `graph.edges()` yields them, `w` their weights. */
  datatype WGraph = WGraph(n: nat, order: seq<Pair>, w: map<Pair, real>)

  /** Edges join nodes of the graph, none is listed twice, and exactly the
      listed edges have a weight. */
  ghost predicate WellFormed(G: WGraph)
  {
    && (forall i :: 0 <= i < |G.order| ==> G.order[i].lo <= G.order[i].hi < G.n)
    && (forall i, j :: 0 <= i < j < |G.order| ==> G.order[i] != G.order[j])
    && (forall p :: p in G.w <==> p in G.order)
  }

  /** What a Louvain constructor is handed: a networkx graph that is
      undirected or directed, or some other object. */
  datatype Input = UndirectedGraph(g: WGraph) | DirectedGraph(g: WGraph) | NotAGraph

  /** Both Louvain constructors accept only an undirected graph and raise
      `TypeError` for anything else. */
  function CheckInput(input: Input): (r: Result<WGraph>)
    ensures r.Success? <==> input.UndirectedGraph?
    ensures r.Success? ==> r.value == input.g
    ensures r.Failure? ==> r.error.TypeError?
  {
    if input.UndirectedGraph? then Success(input.g)
    else Failure(TypeError("input graph must be an undirected NetworkX graph"))
  }

  /** The weight stored for `p`, 0 when there is no such edge. */
  function Wt(w: map<Pair, real>, p: Pair): real
  {
    if p in w then w[p] else 0.0
  }

  /** `A_xy`: the weight of the edge {x,y}, 0 when x and y are not adjacent. */
  function Adj(G: WGraph, x: nat, y: nat): real
  {
    Wt(G.w, UPair(x, y))
  }

  /** The sum of the weights of the first `j` listed edges. */
  function TotalOf(order: seq<Pair>, w: map<Pair, real>, j: nat): real
    requires j <= |order|
  {
    if j == 0 then 0.0 else TotalOf(order, w, j - 1) + Wt(w, order[j - 1])
  }

  /** `graph.size(weight)`: the sum of all edge weights. */
  function Total(G: WGraph): real
  {
    TotalOf(G.order, G.w, |G.order|)
  }

  /** What edge `p` of weight `wt` adds to the weighted degree of `x`: its
      weight once per end at `x`, so a self-loop counts twice. */
  function EndWeight(p: Pair, wt: real, x: nat): real
  {
    (if p.lo == x then wt else 0.0) + (if p.hi == x then wt else 0.0)
  }

  /** The weighted degree of `x` over the first `j` listed edges. */
  function DegreeUpTo(G: WGraph, j: nat, x: nat): real
    requires j <= |G.order|
  {
    if j == 0 then 0.0
    else DegreeUpTo(G, j - 1, x) + EndWeight(G.order[j - 1], Wt(G.w, G.order[j - 1]), x)
  }

  /** `k[x]`: the sum of the weights of the edges at `x`, a self-loop twice. */
  function Degree(G: WGraph, x: nat): real
  {
    DegreeUpTo(G, |G.order|, x)
  }

  /** Edges beyond the first `j` do not touch the first `j` totals. */
  lemma {:induction false} TotalOfPrefix(order: seq<Pair>, w: map<Pair, real>, s: seq<Pair>, j: nat)
    requires j <= |order| && j <= |s| && order[..j] == s[..j]
    ensures TotalOf(order, w, j) == TotalOf(s, w, j)
  {
    if j > 0 {
      assert order[..j - 1] == order[..j][..j - 1];
      assert s[..j - 1] == s[..j][..j - 1];
      assert order[j - 1] == order[..j][j - 1];
      assert s[j - 1] == s[..j][j - 1];
      TotalOfPrefix(order, w, s, j - 1);
    }
  }

  /** Changing the weight of an edge that is not among the first `j` leaves
      their total as it was. */
  lemma {:induction false} TotalOfOther(order: seq<Pair>, w: map<Pair, real>, p: Pair, v: real, j: nat)
    requires j <= |order|
    requires forall i :: 0 <= i < j ==> order[i] != p
    ensures TotalOf(order, w[p := v], j) == TotalOf(order, w, j)
  {
    if j > 0 {
      TotalOfOther(order, w, p, v, j - 1);
    }
  }

  /** Adding `d` to the weight of an edge listed once raises the total by `d`. */
  lemma {:induction false} TotalOfBump(order: seq<Pair>, w: map<Pair, real>, p: Pair, d: real, j: nat)
    requires j <= |order|
    requires forall a, b :: 0 <= a < b < |order| ==> order[a] != order[b]
    ensures TotalOf(order, w[p := Wt(w, p) + d], j)
         == TotalOf(order, w, j) + (if p in order[..j] then d else 0.0)
  {
    if j > 0 {
      TotalOfBump(order, w, p, d, j - 1);
      assert order[..j] == order[..j - 1] + [order[j - 1]];
      if order[j - 1] == p {
        var pre := order[..j - 1];
        assert forall a :: 0 <= a < |pre| ==> pre[a] != p;
      }
    }
  }

  /** Listing a new edge of weight `v` raises the total by `v`. */
  lemma AddEdgeTotal(order: seq<Pair>, w: map<Pair, real>, p: Pair, v: real)
    requires p !in order
    ensures TotalOf(order + [p], w[p := v], |order| + 1) == TotalOf(order, w, |order|) + v
  {
    assert forall i :: 0 <= i < |order| ==> order[i] != p;
    TotalOfOther(order, w, p, v, |order|);
    TotalOfPrefix(order, w[p := v], order + [p], |order|);
  }

  // ----- Contraction into supernodes -----

  /** The parts list only nodes of a graph with `n` nodes. */
  predicate InRange(parts: seq<seq<nat>>, n: nat)
  {
    forall j, t :: 0 <= j < |parts| && 0 <= t < |parts[j]| ==> parts[j][t] < n
  }

  /** Every node of the graph is listed in some part. */
  predicate Covers(parts: seq<seq<nat>>, n: nat)
  {
    forall x :: 0 <= x < n ==> Owner(parts, x) >= 0
  }

  /** `old_to_new[x]`: the last part listing `x` (each listing overwrites
      the previous one), or -1 when no part lists it. */
  function Owner(parts: seq<seq<nat>>, x: nat): (r: int)
    ensures -1 <= r < |parts|
    ensures r >= 0 ==> x in parts[r] && forall j :: r < j < |parts| ==> x !in parts[j]
    ensures r == -1 <==> forall j :: 0 <= j < |parts| ==> x !in parts[j]
  {
    if parts == [] then -1
    else if x in parts[|parts| - 1] then |parts| - 1
    else Owner(parts[..|parts| - 1], x)
  }

  /** The original nodes of a new supernode: the members of the old nodes
      of its part, in the part's order (`append` for a plain node, which is
      its own only member, `extend` for a supernode). */
  function Flatten(members: seq<seq<nat>>, part: seq<nat>): seq<nat>
    requires forall t :: 0 <= t < |part| ==> part[t] < |members|
  {
    if part == [] then []
    else Flatten(members, part[..|part| - 1]) + members[part[|part| - 1]]
  }

  /** The supernode pair that edge `i` of `G` lands on. */
  function Image(G: WGraph, parts: seq<seq<nat>>, i: nat): Pair
    requires WellFormed(G) && Covers(parts, G.n) && i < |G.order|
  {
    UPair(Owner(parts, G.order[i].lo) as nat, Owner(parts, G.order[i].hi) as nat)
  }

  /** Edge `i` joins two distinct nodes of one part. */
  predicate Inner(G: WGraph, parts: seq<seq<nat>>, i: nat)
    requires WellFormed(G) && Covers(parts, G.n) && i < |G.order|
  {
    G.order[i].lo != G.order[i].hi && Owner(parts, G.order[i].lo) == Owner(parts, G.order[i].hi)
  }

  /** What edge `i` adds to its image: its weight, and once more when
      `twice` is set and it joins two distinct nodes of one part. */
  function Contribution(G: WGraph, parts: seq<seq<nat>>, twice: bool, i: nat): real
    requires WellFormed(G) && Covers(parts, G.n) && i < |G.order|
  {
    var wt := Wt(G.w, G.order[i]);
    if twice && Inner(G, parts, i) then wt + wt else wt
  }

  /** The weight the first `j` edges give to the supernode pair `p`. */
  function CrossUpTo(G: WGraph, parts: seq<seq<nat>>, twice: bool, j: nat, p: Pair): real
    requires WellFormed(G) && Covers(parts, G.n) && j <= |G.order|
  {
    if j == 0 then 0.0
    else
      var c := if Image(G, parts, j - 1) == p then Contribution(G, parts, twice, j - 1) else 0.0;
      CrossUpTo(G, parts, twice, j - 1, p) + c
  }

  /** What the first `j` edges give to all supernode pairs together. */
  function ContributionUpTo(G: WGraph, parts: seq<seq<nat>>, twice: bool, j: nat): real
    requires WellFormed(G) && Covers(parts, G.n) && j <= |G.order|
  {
    if j == 0 then 0.0
    else ContributionUpTo(G, parts, twice, j - 1) + Contribution(G, parts, twice, j - 1)
  }

  /** The weight of the first `j` edges that join distinct nodes of one part. */
  function InnerUpTo(G: WGraph, parts: seq<seq<nat>>, j: nat): real
    requires WellFormed(G) && Covers(parts, G.n) && j <= |G.order|
  {
    if j == 0 then 0.0
    else InnerUpTo(G, parts, j - 1) + (if Inner(G, parts, j - 1) then Wt(G.w, G.order[j - 1]) else 0.0)
  }

  /** `H` is the graph of supernodes `induced_graph` builds from `G`: one
      node per part, an edge for each pair some edge of `G` lands on, and
      on it the weight of all edges landing there. */
  ghost predicate ContractionOf(G: WGraph, parts: seq<seq<nat>>, twice: bool, H: WGraph)
  {
    && WellFormed(G) && Covers(parts, G.n)
    && WellFormed(H) && H.n == |parts|
    && (forall p :: p in H.w <==> Hit(G, parts, |G.order|, p))
    && (forall p :: Wt(H.w, p) == CrossUpTo(G, parts, twice, |G.order|, p))
  }

  /** Contraction keeps the total edge weight, and with `twice` adds the
      weight of the edges inside parts once more. */
  lemma {:induction false} ContributionTotal(G: WGraph, parts: seq<seq<nat>>, twice: bool, j: nat)
    requires WellFormed(G) && Covers(parts, G.n) && j <= |G.order|
    ensures ContributionUpTo(G, parts, twice, j)
         == TotalOf(G.order, G.w, j) + (if twice then InnerUpTo(G, parts, j) else 0.0)
  {
    if j > 0 {
      ContributionTotal(G, parts, twice, j - 1);
    }
  }

  /** One listing of part `q` after `parts`: it owns exactly its own nodes. */
  lemma OwnerSnoc(parts: seq<seq<nat>>, q: seq<nat>, x: nat)
    ensures Owner(parts + [q], x) == if x in q then |parts| else Owner(parts, x)
  {
    assert (parts + [q])[..|parts|] == parts;
  }

  lemma FlattenSnoc(members: seq<seq<nat>>, part: seq<nat>, t: nat)
    requires forall s :: 0 <= s < |part| ==> part[s] < |members|
    requires t < |part|
    ensures Flatten(members, part[..t + 1]) == Flatten(members, part[..t]) + members[part[t]]
  {
    assert part[..t + 1][..t] == part[..t];
  }

  /** Listing one more node of the current part moves that node, and only
      that node, to the current part. */
  lemma OwnerExtend(pre: seq<seq<nat>>, part: seq<nat>, t: nat, x: nat)
    requires t < |part|
    ensures Owner(pre + [part[..t + 1]], x) == if x == part[t] then |pre| else Owner(pre + [part[..t]], x)
  {
    OwnerSnoc(pre, part[..t + 1], x);
    OwnerSnoc(pre, part[..t], x);
    assert part[..t + 1] == part[..t] + [part[t]];
  }

  /** Before any node of the current part is listed, ownership is that of
      the earlier parts; once all are, it is that of the parts up to it. */
  lemma OwnerEnds(parts: seq<seq<nat>>, j: nat, x: nat)
    requires j < |parts|
    ensures Owner(parts[..j] + [parts[j][..0]], x) == Owner(parts[..j], x)
    ensures Owner(parts[..j] + [parts[j][..|parts[j]|]], x) == Owner(parts[..j + 1], x)
  {
    OwnerSnoc(parts[..j], parts[j][..0], x);
    assert parts[j][..|parts[j]|] == parts[j];
    assert parts[..j + 1] == parts[..j] + [parts[j]];
  }

  /** Builds the supernode of part `j`: `new_node.append` / `extend` for each
      old node in turn, while `old_to_new` is pointed at part `j`. */
  method ContractPart(members: seq<seq<nat>>, parts: seq<seq<nat>>, j: nat, o2n: map<nat, nat>)
    returns (sn: seq<nat>, o2n': map<nat, nat>)
    requires InRange(parts, |members|) && j < |parts|
    requires forall x :: x in o2n <==> Owner(parts[..j], x) >= 0
    requires forall x :: x in o2n ==> o2n[x] == Owner(parts[..j], x)
    ensures sn == Flatten(members, parts[j])
    ensures forall x :: x in o2n' <==> Owner(parts[..j + 1], x) >= 0
    ensures forall x :: x in o2n' ==> o2n'[x] == Owner(parts[..j + 1], x)
  {
    var part := parts[j];
    ghost var pre := parts[..j];
    sn := [];
    o2n' := o2n;
    forall x
      ensures Owner(pre + [part[..0]], x) == Owner(pre, x)
    {
      OwnerEnds(parts, j, x);
    }
    for t := 0 to |part|
      invariant sn == Flatten(members, part[..t])
      invariant forall x :: x in o2n' <==> Owner(pre + [part[..t]], x) >= 0
      invariant forall x :: x in o2n' ==> o2n'[x] == Owner(pre + [part[..t]], x)
    {
      FlattenSnoc(members, part, t);
      sn := sn + members[part[t]];
      o2n' := o2n'[part[t] := j];
      forall x
        ensures Owner(pre + [part[..t + 1]], x) == if x == part[t] then j else Owner(pre + [part[..t]], x)
      {
        OwnerExtend(pre, part, t, x);
      }
    }
    assert part[..|part|] == part;
    forall x
      ensures Owner(pre + [part[..|part|]], x) == Owner(parts[..j + 1], x)
    {
      OwnerEnds(parts, j, x);
    }
  }

  /** Some of the first `i` edges lands on the supernode pair `p`. */
  predicate Hit(G: WGraph, parts: seq<seq<nat>>, i: nat, p: Pair)
    requires WellFormed(G) && Covers(parts, G.n) && i <= |G.order|
  {
    i > 0 && (Hit(G, parts, i - 1, p) || Image(G, parts, i - 1) == p)
  }

  lemma {:induction false} HitExists(G: WGraph, parts: seq<seq<nat>>, i: nat, p: Pair)
    requires WellFormed(G) && Covers(parts, G.n) && i <= |G.order|
    ensures Hit(G, parts, i, p) <==> exists a :: 0 <= a < i && Image(G, parts, a) == p
  {
    if i > 0 {
      HitExists(G, parts, i - 1, p);
    }
  }

  /** `nl_graph[u][v][weight] += d` on an existing edge, else a new edge
      {u,v} of weight `d`. */
  function Accumulate(H: WGraph, p: Pair, d: real): WGraph
  {
    if p in H.w then H.(w := H.w[p := H.w[p] + d])
    else H.(order := H.order + [p], w := H.w[p := d])
  }

  lemma AccumulateFacts(H: WGraph, p: Pair, d: real)
    requires WellFormed(H) && p.lo <= p.hi < H.n
    ensures WellFormed(Accumulate(H, p, d))
    ensures Accumulate(H, p, d).n == H.n
    ensures forall q :: q in Accumulate(H, p, d).w <==> q in H.w || q == p
    ensures forall q :: Wt(Accumulate(H, p, d).w, q) == Wt(H.w, q) + (if q == p then d else 0.0)
    ensures Total(Accumulate(H, p, d)) == Total(H) + d
  {
    if p in H.w {
      BumpEdge(H, p, d);
    } else {
      NewEdge(H, p, d);
    }
  }

  lemma BumpEdge(H: WGraph, p: Pair, d: real)
    requires WellFormed(H) && p in H.w
    ensures WellFormed(H.(w := H.w[p := H.w[p] + d]))
    ensures Total(H.(w := H.w[p := H.w[p] + d])) == Total(H) + d
  {
    TotalOfBump(H.order, H.w, p, d, |H.order|);
    assert H.order[..|H.order|] == H.order;
  }

  lemma NewEdge(H: WGraph, p: Pair, d: real)
    requires WellFormed(H) && p !in H.w && p.lo <= p.hi < H.n
    ensures WellFormed(H.(order := H.order + [p], w := H.w[p := d]))
    ensures Total(H.(order := H.order + [p], w := H.w[p := d])) == Total(H) + d
  {
    AddEdgeTotal(H.order, H.w, p, d);
    var o := H.order + [p];
    assert forall a :: 0 <= a < |H.order| ==> o[a] == H.order[a];
    assert forall q :: q in o <==> q in H.order || q == p;
  }

  /** What edge `i` adds to the sums over the first `i` edges. */
  lemma ImageStep(G: WGraph, parts: seq<seq<nat>>, twice: bool, i: nat, q: Pair)
    requires WellFormed(G) && Covers(parts, G.n) && i < |G.order|
    ensures CrossUpTo(G, parts, twice, i + 1, q) == CrossUpTo(G, parts, twice, i, q)
      + (if Image(G, parts, i) == q then Contribution(G, parts, twice, i) else 0.0)
    ensures Hit(G, parts, i + 1, q) <==> Hit(G, parts, i, q) || Image(G, parts, i) == q
  {
  }

  /** The state of the next-level graph after the first `i` old edges. */
  ghost predicate ContractInv(G: WGraph, parts: seq<seq<nat>>, twice: bool, i: nat, H: WGraph)
    requires WellFormed(G) && Covers(parts, G.n) && i <= |G.order|
  {
    && WellFormed(H) && H.n == |parts|
    && (forall p :: p in H.w <==> Hit(G, parts, i, p))
    && (forall p :: Wt(H.w, p) == CrossUpTo(G, parts, twice, i, p))
    && Total(H) == ContributionUpTo(G, parts, twice, i)
  }

  /** Adds old edge `i` to the next-level graph: its weight on the supernode
      pair it lands on, and with `twice` once more when it joins distinct
      nodes of one part. */
  method AddImage(G: WGraph, parts: seq<seq<nat>>, twice: bool, o2n: map<nat, nat>, i: nat, H: WGraph)
    returns (H': WGraph)
    requires WellFormed(G) && Covers(parts, G.n) && i < |G.order|
    requires forall x :: 0 <= x < G.n ==> x in o2n && o2n[x] == Owner(parts, x)
    requires ContractInv(G, parts, twice, i, H)
    ensures ContractInv(G, parts, twice, i + 1, H')
  {
    var e := G.order[i];
    var wt := Wt(G.w, e);
    var u := o2n[e.lo];
    var v := o2n[e.hi];
    var p := UPair(u, v);
    assert p == Image(G, parts, i);
    AccumulateFacts(H, p, wt);
    H' := Accumulate(H, p, wt);
    if twice && u == v && e.lo != e.hi {
      assert Inner(G, parts, i);
      AccumulateFacts(H', p, wt);
      H' := Accumulate(H', p, wt);
    }
    InvStep(G, parts, twice, i, H, H');
  }

  /** A graph that differs from `H` exactly by what edge `i` contributes to
      its image carries the invariant one edge further. */
  lemma InvStep(G: WGraph, parts: seq<seq<nat>>, twice: bool, i: nat, H: WGraph, H': WGraph)
    requires WellFormed(G) && Covers(parts, G.n) && i < |G.order|
    requires ContractInv(G, parts, twice, i, H)
    requires WellFormed(H') && H'.n == H.n
    requires Total(H') == Total(H) + Contribution(G, parts, twice, i)
    requires forall q :: q in H'.w <==> q in H.w || q == Image(G, parts, i)
    requires forall q ::
               Wt(H'.w, q) == Wt(H.w, q) + (if q == Image(G, parts, i) then Contribution(G, parts, twice, i) else 0.0)
    ensures ContractInv(G, parts, twice, i + 1, H')
  {
    forall q
      ensures Wt(H'.w, q) == CrossUpTo(G, parts, twice, i + 1, q)
    {
      ImageStep(G, parts, twice, i, q);
    }
    forall q
      ensures q in H'.w <==> Hit(G, parts, i + 1, q)
    {
      ImageStep(G, parts, twice, i, q);
    }
  }

  /** `_next_level_graph`: one supernode per part holding the flattened
      original nodes of that part, and one edge per supernode pair that
      some old edge lands on, weighted by what those old edges contribute. */
  method Contract(G: WGraph, members: seq<seq<nat>>, parts: seq<seq<nat>>, twice: bool)
    returns (H: WGraph, hMembers: seq<seq<nat>>)
    requires WellFormed(G) && |members| == G.n
    requires InRange(parts, G.n) && Covers(parts, G.n)
    ensures WellFormed(H) && H.n == |parts| && |hMembers| == |parts|
    ensures forall j :: 0 <= j < |parts| ==> hMembers[j] == Flatten(members, parts[j])
    ensures ContractionOf(G, parts, twice, H)
    ensures forall p :: p in H.w <==> exists i :: 0 <= i < |G.order| && Image(G, parts, i) == p
    ensures Total(H) == Total(G) + (if twice then InnerUpTo(G, parts, |G.order|) else 0.0)
  {
    hMembers := [];
    var o2n: map<nat, nat> := map[];
    for j := 0 to |parts|
      invariant |hMembers| == j
      invariant forall a :: 0 <= a < j ==> hMembers[a] == Flatten(members, parts[a])
      invariant forall x :: x in o2n <==> Owner(parts[..j], x) >= 0
      invariant forall x :: x in o2n ==> o2n[x] == Owner(parts[..j], x)
    {
      var sn;
      sn, o2n := ContractPart(members, parts, j, o2n);
      hMembers := hMembers + [sn];
    }
    assert parts[..|parts|] == parts;
    H := WGraph(|parts|, [], map[]);
    for i := 0 to |G.order|
      invariant ContractInv(G, parts, twice, i, H)
    {
      H := AddImage(G, parts, twice, o2n, i, H);
    }
    ContributionTotal(G, parts, twice, |G.order|);
    forall p
      ensures p in H.w <==> exists i :: 0 <= i < |G.order| && Image(G, parts, i) == p
    {
      HitExists(G, parts, |G.order|, p);
    }
  }
}
