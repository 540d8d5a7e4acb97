/** The module-level `modularity` function of `Louvain_new.py`: Newman's
    modularity of a partition of a weighted graph, the sum over all ordered
    pairs of nodes in the same part of `A_xy - k_x k_y / 2m`, divided by
    `2m`. The partition is a dict from node to part id or a list of parts;
    a node without a part raises `KeyError`, a graph of total weight 0
    raises `ZeroDivisionError`. */
module Modularity {
  import opened Wrappers
  import opened WeightedGraphs
  import opened Communities

  /** How a partition is handed over: a dict from node to part id, or a
      list of parts. */
  datatype PartitionArg = AsDict(labels: map<nat, nat>) | AsList(parts: seq<seq<nat>>)

  /** Every node 0..n-1 has a part id in `lab`. */
  predicate Labelled(lab: map<nat, nat>, n: nat)
  {
    forall x :: 0 <= x < n ==> x in lab
  }

  /** `node_to_part` on the nodes: the dict itself, or for a list the index
      of the last part listing each node (each listing overwrites the
      previous one). */
  function PartIds(partition: PartitionArg, n: nat): map<nat, nat>
  {
    match partition
    case AsDict(labels) => labels
    case AsList(parts) => map x | 0 <= x < n && Owner(parts, x) >= 0 :: Owner(parts, x) as nat
  }

  /** The weighted degrees of all nodes, a self-loop counted twice. */
  function Degrees(G: WGraph): (k: seq<real>)
    ensures |k| == G.n && forall x :: 0 <= x < G.n ==> k[x] == Degree(G, x)
  {
    seq(G.n, x requires 0 <= x < G.n => Degree(G, x))
  }

  /** The term `A_xy - k_x k_y / 2m` of the ordered pair (x, y). */
  function PairTerm(G: WGraph, k: seq<real>, m: real, x: nat, y: nat): real
    requires x < |k| && y < |k| && m != 0.0
  {
    Adj(G, x, y) - k[x] * k[y] / (2.0 * m)
  }

  /** The terms of the pairs (x, y) for the first `j` nodes y in x's part. */
  function RowSum(G: WGraph, k: seq<real>, m: real, lab: map<nat, nat>, x: nat, j: nat): real
    requires x < |k| && j <= |k| && m != 0.0 && x in lab && Labelled(lab, j)
  {
    if j == 0 then 0.0
    else RowSum(G, k, m, lab, x, j - 1) + (if lab[j - 1] == lab[x] then PairTerm(G, k, m, x, j - 1) else 0.0)
  }

  /** The terms of the same-part pairs whose first node is among the first `i`. */
  function PairSum(G: WGraph, k: seq<real>, m: real, lab: map<nat, nat>, i: nat): real
    requires i <= |k| && m != 0.0 && Labelled(lab, |k|)
  {
    if i == 0 then 0.0 else PairSum(G, k, m, lab, i - 1) + RowSum(G, k, m, lab, i - 1, |k|)
  }

  /** Newman's modularity Q of the partition `lab` of G's nodes. */
  function ModularityOf(G: WGraph, lab: map<nat, nat>): real
    requires Total(G) != 0.0 && Labelled(lab, G.n)
  {
    PairSum(G, Degrees(G), Total(G), lab, G.n) / (2.0 * Total(G))
  }

  /** What `modularity` gives for the part ids `lab`. The pairs are visited
      row by row from (0, 0), looking up both part ids (`KeyError` for a
      node without one) and dividing by `2m` for each same-part pair, so a
      graph of total weight 0 fails at (0, 0) unless node 0 has no part;
      the final division fails on an empty graph. */
  function Outcome(G: WGraph, lab: map<nat, nat>): Result<real>
  {
    if Total(G) == 0.0 then
      if G.n > 0 && 0 !in lab then Failure(KeyError) else Failure(ZeroDivisionError)
    else if !Labelled(lab, G.n) then Failure(KeyError)
    else Success(ModularityOf(G, lab))
  }

  /** `modularity(G, partition)`. */
  method Modularity(G: WGraph, partition: PartitionArg) returns (r: Result<real>)
    requires WellFormed(G)
    ensures r == Outcome(G, PartIds(partition, G.n))
  {
    var n := G.n;
    var k := WeightedDegrees(G);
    var m := Total(G);
    var nodeToPart: map<nat, nat>;
    match partition {
      case AsDict(labels) =>
        nodeToPart := labels;
      case AsList(parts) =>
        nodeToPart := NodeToPart(parts);
    }
    ghost var lab := PartIds(partition, n);
    assert SameIds(nodeToPart, lab, n);
    r := SumPairs(G, k, m, nodeToPart);
    OutcomeSameIds(G, nodeToPart, lab);
  }

  /** The double loop of `modularity` over the pairs (x, y), row by row,
      and the final division. */
  method SumPairs(G: WGraph, k: seq<real>, m: real, nodeToPart: map<nat, nat>) returns (r: Result<real>)
    requires k == Degrees(G) && m == Total(G)
    ensures r == Outcome(G, nodeToPart)
  {
    var n := G.n;
    var total := 0.0;
    for x := 0 to n
      invariant x == 0 ==> total == 0.0
      invariant x > 0 ==> Labelled(nodeToPart, n) && m != 0.0 && total == PairSum(G, k, m, nodeToPart, x)
    {
      for y := 0 to n
        invariant y == 0 ==> total == (if x == 0 then 0.0 else PairSum(G, k, m, nodeToPart, x))
        invariant y > 0 ==> x in nodeToPart && Labelled(nodeToPart, y) && m != 0.0
        invariant y > 0 ==> total == (if x == 0 then 0.0 else PairSum(G, k, m, nodeToPart, x))
                                     + RowSum(G, k, m, nodeToPart, x, y)
      {
        if x !in nodeToPart || y !in nodeToPart {
          return Failure(KeyError);
        }
        if nodeToPart[x] == nodeToPart[y] {
          if m == 0.0 {
            return Failure(ZeroDivisionError);
          }
          total := total + PairTerm(G, k, m, x, y);
        }
        assert Labelled(nodeToPart, y + 1);
        assert m != 0.0 by {
          if x == 0 && y == 0 {
            assert nodeToPart[x] == nodeToPart[y];
          }
        }
      }
      assert total == PairSum(G, k, m, nodeToPart, x + 1);
    }
    if m == 0.0 {
      return Failure(ZeroDivisionError);
    }
    assert Labelled(nodeToPart, n) && total == PairSum(G, k, m, nodeToPart, n);
    r := Success(total / (2.0 * m));
  }

  /** `ntp` and `lab` give the same part ids to the nodes 0..n-1. */
  ghost predicate SameIds(ntp: map<nat, nat>, lab: map<nat, nat>, n: nat)
  {
    forall x :: 0 <= x < n ==> (x in ntp <==> x in lab) && (x in lab ==> ntp[x] == lab[x])
  }

  /** The loop of `modularity` that adds each edge's weight to the degrees
      of both ends. */
  method WeightedDegrees(G: WGraph) returns (k: seq<real>)
    requires WellFormed(G)
    ensures k == Degrees(G)
  {
    k := seq(G.n, _ => 0.0);
    for i := 0 to |G.order|
      invariant |k| == G.n
      invariant forall x :: 0 <= x < G.n ==> k[x] == DegreeUpTo(G, i, x)
    {
      var e := G.order[i];
      var wt := G.w[e];
      k := k[e.lo := k[e.lo] + wt];
      k := k[e.hi := k[e.hi] + wt];
    }
  }

  /** `node_to_part` for a list of parts: every listed node maps to the
      index of the last part listing it. */
  method NodeToPart(parts: seq<seq<nat>>) returns (ntp: map<nat, nat>)
    ensures forall x :: x in ntp <==> Owner(parts, x) >= 0
    ensures forall x :: x in ntp ==> ntp[x] == Owner(parts, x)
  {
    ntp := map[];
    for j := 0 to |parts|
      invariant forall x :: x in ntp <==> Owner(parts[..j], x) >= 0
      invariant forall x :: x in ntp ==> ntp[x] == Owner(parts[..j], x)
    {
      var part := parts[j];
      ghost var pre := parts[..j];
      forall x
        ensures Owner(pre + [part[..0]], x) == Owner(pre, x)
      {
        OwnerEnds(parts, j, x);
      }
      for t := 0 to |part|
        invariant forall x :: x in ntp <==> Owner(pre + [part[..t]], x) >= 0
        invariant forall x :: x in ntp ==> ntp[x] == Owner(pre + [part[..t]], x)
      {
        ntp := ntp[part[t] := j];
        forall x
          ensures Owner(pre + [part[..t + 1]], x) == if x == part[t] then j else Owner(pre + [part[..t]], x)
        {
          OwnerExtend(pre, part, t, x);
        }
      }
      forall x
        ensures Owner(pre + [part[..|part|]], x) == Owner(parts[..j + 1], x)
      {
        OwnerEnds(parts, j, x);
      }
    }
    assert parts[..|parts|] == parts;
  }

  // ----- Lemmas -----

  /** Two labellings that put the same nodes together give equal row sums. */
  lemma {:induction false} SameGroupingRow(G: WGraph, k: seq<real>, m: real, lab: map<nat, nat>, lab': map<nat, nat>, x: nat, j: nat)
    requires x < |k| && j <= |k| && m != 0.0 && Labelled(lab, |k|) && Labelled(lab', |k|)
    requires forall y :: 0 <= y < |k| ==> (lab[y] == lab[x] <==> lab'[y] == lab'[x])
    ensures RowSum(G, k, m, lab, x, j) == RowSum(G, k, m, lab', x, j)
  {
    if j > 0 {
      SameGroupingRow(G, k, m, lab, lab', x, j - 1);
    }
  }

  /** Q depends only on which nodes share a part, not on the part ids: in
      particular not on the order in which the parts are listed. */
  lemma SameGrouping(G: WGraph, lab: map<nat, nat>, lab': map<nat, nat>)
    requires Labelled(lab, G.n) && Labelled(lab', G.n)
    requires forall x, y :: 0 <= x < G.n && 0 <= y < G.n ==> (lab[x] == lab[y] <==> lab'[x] == lab'[y])
    ensures Total(G) != 0.0 ==> ModularityOf(G, lab) == ModularityOf(G, lab')
  {
    if Total(G) != 0.0 {
      var k, m := Degrees(G), Total(G);
      SameGroupingSum(G, k, m, lab, lab', G.n);
    }
  }

  /** The outcome depends only on the part ids of the nodes. */
  lemma OutcomeSameIds(G: WGraph, ntp: map<nat, nat>, lab: map<nat, nat>)
    requires SameIds(ntp, lab, G.n)
    ensures Outcome(G, ntp) == Outcome(G, lab)
  {
    if Total(G) != 0.0 && Labelled(lab, G.n) {
      SameGrouping(G, ntp, lab);
    }
  }

  lemma {:induction false} SameGroupingSum(G: WGraph, k: seq<real>, m: real, lab: map<nat, nat>, lab': map<nat, nat>, i: nat)
    requires i <= |k| && m != 0.0 && Labelled(lab, |k|) && Labelled(lab', |k|)
    requires forall x, y :: 0 <= x < |k| && 0 <= y < |k| ==> (lab[x] == lab[y] <==> lab'[x] == lab'[y])
    ensures PairSum(G, k, m, lab, i) == PairSum(G, k, m, lab', i)
  {
    if i > 0 {
      SameGroupingSum(G, k, m, lab, lab', i - 1);
      SameGroupingRow(G, k, m, lab, lab', i - 1, |k|);
    }
  }
}
