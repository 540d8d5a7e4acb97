/** Community bookkeeping shared by both Louvain implementations. A
    clustering of the nodes 0..n-1 is a label sequence (`node_to_com`), and
    the sums the algorithm keeps per community are defined over it: the
    total degree of a community, the weight from a node into a community,
    and the modularity gain of putting a node into a community. */
module Communities {
  import opened WeightedGraphs

  function Range(n: nat): (s: seq<nat>)
    ensures |s| == n
    ensures forall i :: 0 <= i < n ==> s[i] == i
  {
    if n == 0 then [] else Range(n - 1) + [n - 1]
  }

  /** `s` lists each of 0..n-1 exactly once (a shuffle of the node list). */
  predicate IsPermutation(s: seq<nat>, n: nat)
  {
    && |s| == n
    && (forall i :: 0 <= i < n ==> s[i] < n)
    && (forall x :: 0 <= x < n ==> x in s)
    && (forall i, j :: 0 <= i < j < n ==> s[i] != s[j])
  }

  /** The identity order and the singleton communities: the state every
      level starts from. */
  lemma InitialState(n: nat)
    ensures IsPermutation(Range(n), n)
    ensures IsCommunityMap(Singletons(n), Range(n), n)
  {
    var r := Range(n);
    forall x | 0 <= x < n
      ensures x in r
    {
      assert r[x] == x;
    }
  }

  /** Community i holds node i only. */
  function Singletons(n: nat): map<nat, set<nat>>
  {
    map i | 0 <= i < n :: {i}
  }

  /** `com_tot[C]`: the sum of `k` over the first `j` nodes labelled `C`. */
  function ComSum(k: seq<real>, lab: seq<nat>, C: nat, j: nat): real
    requires j <= |k| && j <= |lab|
  {
    if j == 0 then 0.0
    else ComSum(k, lab, C, j - 1) + (if lab[j - 1] == C then k[j - 1] else 0.0)
  }

  /** `com_tot` as a whole: the total degree of every community label
      below `n`. */
  function ComTotals(k: seq<real>, lab: seq<nat>, n: nat): (t: map<nat, real>)
    requires n <= |k| && n <= |lab|
    ensures forall C: nat :: C in t <==> C < n
  {
    map C | C in RangeSet(n) :: ComSum(k, lab, C, n)
  }

  /** The weight of the edges from `x` to the nodes y != x among the first
      `j` that are labelled `C`. */
  function WeightTo(G: WGraph, lab: seq<nat>, x: nat, C: nat, j: nat): real
    requires j <= |lab|
  {
    if j == 0 then 0.0
    else WeightTo(G, lab, x, C, j - 1) + (if j - 1 != x && lab[j - 1] == C then Adj(G, x, j - 1) else 0.0)
  }

  /** Some neighbour y != x of `x` among the first `j` nodes is labelled `C`. */
  predicate Touches(G: WGraph, lab: seq<nat>, x: nat, C: nat, j: nat)
    requires j <= |lab|
  {
    j > 0 && (Touches(G, lab, x, C, j - 1) || (j - 1 != x && UPair(x, j - 1) in G.w && lab[j - 1] == C))
  }

  /** The gain in modularity of putting an isolated node of degree `kx` into
      a community of total degree `tot` to which it has links of weight
      `kIn`, in a graph of total weight `m` (the equation of Blondel et al.
      in the simplified form `Louvain.py` uses). */
  function Gain(kIn: real, tot: real, kx: real, m: real): real
    requires m != 0.0
  {
    (kIn - tot * kx / (2.0 * m)) / m
  }

  /** The gain of moving `x`, taken out of its community, into community `C`. */
  function MoveGain(G: WGraph, k: seq<real>, m: real, lab: seq<nat>, x: nat, C: nat): real
    requires m != 0.0 && |k| == |lab| && x < |k|
  {
    Gain(WeightTo(G, lab, x, C, |lab|), ComSum(k[x := 0.0], lab, C, |lab|), k[x], m)
  }

  /** No node would gain by joining the community of one of its
      neighbours (the state a level's clustering stops in). */
  ghost predicate Optimal(G: WGraph, k: seq<real>, m: real, lab: seq<nat>)
  {
    m != 0.0 && |k| == |lab| == G.n ==>
      forall x, y :: 0 <= x < G.n && 0 <= y < G.n && UPair(x, y) in G.w ==>
        MoveGain(G, k, m, lab, x, lab[y]) <= MoveGain(G, k, m, lab, x, lab[x])
  }

  /** The weighted degrees of all nodes of `G`, in node order. */
  function Degrees(G: WGraph): seq<real>
  {
    seq(G.n, x requires 0 <= x => Degree(G, x))
  }

  /** `Optimal` with the degrees and total weight of `G` itself. */
  ghost predicate LocallyOptimal(G: WGraph, lab: seq<nat>)
  {
    Optimal(G, Degrees(G), Total(G), lab)
  }

  /** Every node is in the community its label names, each community is
      non-empty, and a community holds exactly the nodes labelled with it. */
  ghost predicate IsCommunityMap(D: map<nat, set<nat>>, lab: seq<nat>, n: nat)
  {
    && |lab| == n
    && (forall x :: 0 <= x < n ==> lab[x] in D && x in D[lab[x]])
    && (forall C :: C in D ==> C < n && D[C] != {})
    && (forall C: nat, x: nat :: C in D && x in D[C] ==> x < n && lab[x] == C)
  }

  /** `x` leaves community `Cx` for `b`; `Cx` is deleted if that empties it. */
  function MoveTo(D: map<nat, set<nat>>, x: nat, Cx: nat, b: nat): map<nat, set<nat>>
    requires Cx in D && b in D
  {
    var D1 := D[Cx := D[Cx] - {x}];
    var D2 := D1[b := D1[b] + {x}];
    if D2[Cx] == {} then D2 - {Cx} else D2
  }

  /** x's weight `w` leaves the total of community `Cx` and joins that of `b`. */
  function Shift(tot: map<nat, real>, Cx: nat, b: nat, w: real): map<nat, real>
    requires Cx in tot && b in tot
  {
    var t := tot[Cx := tot[Cx] - w];
    t[b := t[b] + w]
  }

  // ----- Lemmas -----

  /** Under the initial labelling every community total is its node's degree. */
  lemma {:induction false} ComSumRange(k: seq<real>, C: nat, j: nat)
    requires j <= |k|
    ensures ComSum(k, Range(|k|), C, j) == if C < j then k[C] else 0.0
  {
    if j > 0 {
      ComSumRange(k, C, j - 1);
    }
  }

  /** Zeroing `x`'s degree takes it out of its community's total. */
  lemma {:induction false} ComSumDrop(k: seq<real>, lab: seq<nat>, x: nat, C: nat, j: nat)
    requires j <= |k| && j <= |lab| && x < |k|
    ensures ComSum(k[x := 0.0], lab, C, j) == ComSum(k, lab, C, j) - (if x < j && lab[x] == C then k[x] else 0.0)
  {
    if j > 0 {
      ComSumDrop(k, lab, x, C, j - 1);
    }
  }

  /** Relabelling `x` as `b` adds its degree to `b`'s total. */
  lemma {:induction false} ComSumMove(k: seq<real>, lab: seq<nat>, x: nat, b: nat, C: nat, j: nat)
    requires j <= |k| && j <= |lab| && x < |k| && x < |lab|
    ensures ComSum(k, lab[x := b], C, j) == ComSum(k[x := 0.0], lab, C, j) + (if x < j && b == C then k[x] else 0.0)
  {
    if j > 0 {
      ComSumMove(k, lab, x, b, C, j - 1);
    }
  }

  /** A neighbour labelled `C` makes `C` touched. */
  lemma {:induction false} TouchesAt(G: WGraph, lab: seq<nat>, x: nat, y: nat, j: nat)
    requires j <= |lab| && y < j && y != x && UPair(x, y) in G.w
    ensures Touches(G, lab, x, lab[y], j)
  {
    if y < j - 1 {
      TouchesAt(G, lab, x, y, j - 1);
    }
  }

  /** A touched community is the label of some neighbour. */
  lemma {:induction false} TouchedBy(G: WGraph, lab: seq<nat>, x: nat, C: nat, j: nat) returns (y: nat)
    requires j <= |lab| && Touches(G, lab, x, C, j)
    ensures y < j && y != x && UPair(x, y) in G.w && lab[y] == C
  {
    if Touches(G, lab, x, C, j - 1) {
      y := TouchedBy(G, lab, x, C, j - 1);
    } else {
      y := j - 1;
    }
  }

  /** Without a neighbour labelled `C` there is no weight into `C`. */
  lemma {:induction false} UntouchedWeight(G: WGraph, lab: seq<nat>, x: nat, C: nat, j: nat)
    requires j <= |lab| && !Touches(G, lab, x, C, j)
    ensures WeightTo(G, lab, x, C, j) == 0.0
  {
    if j > 0 {
      UntouchedWeight(G, lab, x, C, j - 1);
    }
  }

  /** The communities after `MoveTo`: `Cx` goes exactly when x was its
      last member and left it, and x is a member of `b` only. */
  lemma MoveToShape(D: map<nat, set<nat>>, x: nat, Cx: nat, b: nat)
    requires Cx in D && b in D
    ensures forall C :: C in MoveTo(D, x, Cx, b) <==> C in D && !(C == Cx && b != Cx && D[Cx] - {x} == {})
    ensures forall C, z :: C in MoveTo(D, x, Cx, b) ==>
              (z in MoveTo(D, x, Cx, b)[C] <==> (z in D[C] && !(z == x && C == Cx)) || (z == x && C == b))
  {
    var D1 := D[Cx := D[Cx] - {x}];
    var D2 := D1[b := D1[b] + {x}];
    assert b != Cx ==> D2[Cx] == D[Cx] - {x};
    assert b == Cx ==> x in D2[Cx];
    forall C, z | C in MoveTo(D, x, Cx, b)
      ensures z in MoveTo(D, x, Cx, b)[C] <==> (z in D[C] && !(z == x && C == Cx)) || (z == x && C == b)
    {
      assert MoveTo(D, x, Cx, b)[C] == D2[C];
    }
  }

  /** Moving a node keeps a community map, and deletes its old community
      exactly when the node left it alone. */
  lemma MoveKeepsCommunities(D: map<nat, set<nat>>, lab: seq<nat>, n: nat, x: nat, b: nat)
    requires IsCommunityMap(D, lab, n) && x < n && b in D
    ensures IsCommunityMap(MoveTo(D, x, lab[x], b), lab[x := b], n)
    ensures MoveTo(D, x, lab[x], b).Keys == D.Keys - (if b != lab[x] && D[lab[x]] == {x} then {lab[x]} else {})
  {
    var Cx := lab[x];
    var D' := MoveTo(D, x, Cx, b);
    var lab' := lab[x := b];
    MoveToShape(D, x, Cx, b);
    assert D[Cx] - {x} == {} <==> D[Cx] == {x} by {
      assert x in D[Cx];
      if D[Cx] - {x} == {} {
        forall z | z in D[Cx] ensures z == x {
          assert z !in D[Cx] - {x};
        }
      }
    }
    forall z | 0 <= z < n
      ensures lab'[z] in D' && z in D'[lab'[z]]
    {
      if z != x {
        assert z in D[lab[z]];
        assert lab[z] != Cx || z in D[Cx] - {x};
      }
    }
    forall C | C in D'
      ensures C < n && D'[C] != {}
    {
      if C == b {
        assert x in D'[C];
      } else {
        var z :| z in D[C] && (C != Cx || z != x);
        assert z in D'[C];
      }
    }
    forall C: nat, z: nat | C in MoveTo(D, x, lab[x], b) && z in MoveTo(D, x, lab[x], b)[C]
      ensures z < n && lab[x := b][z] == C
    {
      MovedMember(D, lab, n, x, b, C, z);
    }
  }

  /** A member of a community is a node labelled with it. */
  lemma InCommunity(D: map<nat, set<nat>>, lab: seq<nat>, n: nat, C: nat, z: nat)
    requires IsCommunityMap(D, lab, n) && C in D && z in D[C]
    ensures z < n && lab[z] == C
  {
  }

  /** A member of a community after the move is labelled with it. */
  lemma MovedMember(D: map<nat, set<nat>>, lab: seq<nat>, n: nat, x: nat, b: nat, C: nat, z: nat)
    requires IsCommunityMap(D, lab, n) && x < n && b in D
    requires C in MoveTo(D, x, lab[x], b) && z in MoveTo(D, x, lab[x], b)[C]
    ensures z < n && lab[x := b][z] == C
  {
    MoveToShape(D, x, lab[x], b);
    var D' := MoveTo(D, x, lab[x], b);
    assert C in D;
    assert z in D'[C] <==> (z in D[C] && !(z == x && C == lab[x])) || (z == x && C == b);
    if z != x {
      assert z in D[C];
      InCommunity(D, lab, n, C, z);
    } else if C != b {
      assert false;
    }
  }

  /** A stay-put move changes nothing. */
  lemma StayKeeps(D: map<nat, set<nat>>, lab: seq<nat>, n: nat, x: nat)
    requires IsCommunityMap(D, lab, n) && x < n
    ensures MoveTo(D, x, lab[x], lab[x]) == D
    ensures lab[x := lab[x]] == lab
  {
    assert D[lab[x]] - {x} + {x} == D[lab[x]];
  }

  /** The nodes 0..n-1 as a set. */
  function RangeSet(n: nat): (s: set<nat>)
    ensures forall i :: i in s <==> 0 <= i < n
    ensures |s| == n
  {
    if n == 0 then {} else RangeSet(n - 1) + {n - 1}
  }

  /** Community i holds node i only. */
  lemma SingletonCount(n: nat)
    ensures |Singletons(n)| == n
  {
    assert Singletons(n).Keys == RangeSet(n);
  }

  /** Deleting communities never adds to their number. */
  lemma FewerKeys(D: map<nat, set<nat>>, D': map<nat, set<nat>>)
    requires D'.Keys <= D.Keys
    ensures |D'| <= |D|
  {
    var K, K' := D.Keys, D'.Keys;
    assert K == K' + (K - K') && K' !! (K - K');
    assert |K| == |K'| + |K - K'|;
  }
}
