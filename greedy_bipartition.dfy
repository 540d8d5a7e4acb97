/** The bipartition heuristics of src/bmgedit/partitioning/GreedyBipartition.py:
    the cut value of a partition, the greedy prefix sweep and the gradient
    walk, both driven by a caller-supplied cost function. `random.choice` and
    `np.random.permutation` are nondeterministic choices. */
module GreedyBipartition {
  import opened Wrappers
  import opened Triples
  import opened AhoGraph

  /** A cost function on a list of parts, its extra arguments already bound.
      Both cost functions of the repository count something, so costs are
      natural numbers. */
  type CostFn = seq<set<Leaf>> -> nat

  /** Python's `float('inf')` start value and the finite costs. */
  datatype ExtCost = Inf | Fin(n: nat)

  /** `c < b` with `b` possibly infinite. */
  predicate Below(c: nat, b: ExtCost)
  {
    b.Inf? || c < b.n
  }

  /** `A` and `B` split `V` into two disjoint sides. */
  predicate IsBipartition(A: set<Leaf>, B: set<Leaf>, V: set<Leaf>)
  {
    A !! B && A + B == V
  }

  // ---------------------------------------------------------------------
  // partition_cut_value
  // ---------------------------------------------------------------------

  /** `G.has_edge(x, y)` of an undirected graph. */
  predicate HasEdge(G: Graph, x: Leaf, y: Leaf)
  {
    UEdge(x, y) in G.W
  }

  /** The pairs (x, y) with x in A and y in B that an edge joins. */
  function EdgePairs(A: set<Leaf>, B: set<Leaf>, G: Graph): set<(Leaf, Leaf)>
  {
    set x, y | x in A && y in B && HasEdge(G, x, y) :: (x, y)
  }

  /** The joined pairs between part i and the parts i+1 .. j-1. */
  function RowCut(P: seq<set<Leaf>>, i: nat, j: nat, G: Graph): nat
    requires i < j <= |P|
    decreases j
  {
    if j == i + 1 then 0 else RowCut(P, i, j - 1, G) + |EdgePairs(P[i], P[j - 1], G)|
  }

  /** The joined pairs between part i and any later part, for i < k. */
  function CutRows(P: seq<set<Leaf>>, k: nat, G: Graph): nat
    requires k <= |P|
  {
    if k == 0 then 0 else CutRows(P, k - 1, G) + RowCut(P, k - 1, |P|, G)
  }

  /** The number of pairs (x in Vi, y in Vj), for parts i < j, joined by an edge. */
  function CutValue(P: seq<set<Leaf>>, G: Graph): nat
  {
    CutRows(P, |P|, G)
  }

  /** The joined pairs (x, y) with y in B, for one x. */
  function Row(x: Leaf, B: set<Leaf>, G: Graph): set<(Leaf, Leaf)>
  {
    set y | y in B && HasEdge(G, x, y) :: (x, y)
  }

  /** The inner loop over `Vj` for one `x`. */
  method CountRow(x: Leaf, B: set<Leaf>, G: Graph) returns (n: nat)
    ensures n == |Row(x, B, G)|
  {
    n := 0;
    var ys := B;
    while ys != {}
      invariant ys <= B
      invariant n == |Row(x, B - ys, G)|
      decreases ys
    {
      ghost var w := Pick(ys);
      var y :| y in ys;
      RowAdd(x, B - ys, G, y);
      if HasEdge(G, x, y) {
        n := n + 1;
      }
      assert B - (ys - {y}) == (B - ys) + {y};
      ys := ys - {y};
    }
    assert B - ys == B;
  }

  lemma RowAdd(x: Leaf, B: set<Leaf>, G: Graph, y: Leaf)
    requires y !in B
    ensures Row(x, B + {y}, G) == Row(x, B, G) + (if HasEdge(G, x, y) then {(x, y)} else {})
    ensures (x, y) !in Row(x, B, G)
  {
  }

  /** The pairs of `itertools.product(A, B)` that `G` joins, counted by two
      nested loops over the sets. */
  method CountEdgePairs(A: set<Leaf>, B: set<Leaf>, G: Graph) returns (n: nat)
    ensures n == |EdgePairs(A, B, G)|
  {
    n := 0;
    var xs := A;
    while xs != {}
      invariant xs <= A
      invariant n == |EdgePairs(A - xs, B, G)|
      decreases xs
    {
      ghost var w := Pick(xs);
      var x :| x in xs;
      var c := CountRow(x, B, G);
      EdgePairsAddRow(A - xs, B, G, x);
      n := n + c;
      assert A - (xs - {x}) == (A - xs) + {x};
      xs := xs - {x};
    }
    assert A - xs == A;
  }

  lemma EdgePairsAddRow(A: set<Leaf>, B: set<Leaf>, G: Graph, x: Leaf)
    requires x !in A
    ensures EdgePairs(A + {x}, B, G) == EdgePairs(A, B, G) + Row(x, B, G)
    ensures EdgePairs(A, B, G) !! Row(x, B, G)
  {
  }

  /** `partition_cut_value(partition, G)`: for each pair of parts i < j (in
      the order of `itertools.combinations`), count the joined pairs. */
  method PartitionCutValue(P: seq<set<Leaf>>, G: Graph) returns (cut: nat)
    ensures cut == CutValue(P, G)
  {
    cut := 0;
    for i := 0 to |P|
      invariant cut == CutRows(P, i, G)
    {
      for j := i + 1 to |P|
        invariant cut == CutRows(P, i, G) + RowCut(P, i, j, G)
      {
        var n := CountEdgePairs(P[i], P[j], G);
        cut := cut + n;
      }
    }
  }

  /** The cut value of a bipartition is the number of joined cross pairs. */
  lemma BipartitionCut(A: set<Leaf>, B: set<Leaf>, G: Graph)
    ensures CutValue([A, B], G) == |EdgePairs(A, B, G)|
  {
    var P := [A, B];
    assert P[0] == A && P[1] == B;
    assert RowCut(P, 1, 2, G) == 0;
    assert RowCut(P, 0, 1, G) == 0;
    assert CutRows(P, 1, G) == RowCut(P, 0, 2, G);
    assert RowCut(P, 0, 2, G) == RowCut(P, 0, 1, G) + |EdgePairs(A, B, G)|;
  }

  /** Swapping the two components of every pair keeps the count. */
  lemma {:induction false} SwapCard(S: set<(Leaf, Leaf)>)
    ensures |set p | p in S :: (p.1, p.0)| == |S|
  {
    if S != {} {
      var p := Pick(S);
      var S' := S - {p};
      SwapCard(S');
      var img := set q | q in S :: (q.1, q.0);
      var img' := set q | q in S' :: (q.1, q.0);
      assert img == img' + {(p.1, p.0)};
      assert (p.1, p.0) !in img';
    }
  }

  /** The graph is undirected, so the cut value does not depend on which
      side is listed first. */
  lemma CutValueSymmetric(A: set<Leaf>, B: set<Leaf>, G: Graph)
    ensures CutValue([A, B], G) == CutValue([B, A], G)
  {
    BipartitionCut(A, B, G);
    BipartitionCut(B, A, G);
    var S := EdgePairs(A, B, G);
    SwapCard(S);
    assert EdgePairs(B, A, G) == set p | p in S :: (p.1, p.0) by {
      forall x, y | x in A && y in B ensures HasEdge(G, x, y) == HasEdge(G, y, x) {
        assert UEdge(x, y) == UEdge(y, x);
      }
    }
  }

  // ---------------------------------------------------------------------
  // _move
  // ---------------------------------------------------------------------

  /** `_move(from_set, to_set, x)`: the new (from_set, to_set). */
  function Move(from: set<Leaf>, to: set<Leaf>, x: Leaf): (r: (set<Leaf>, set<Leaf>))
    requires x in from
    ensures r.0 + r.1 == from + to
    ensures x !in r.0 && x in r.1
  {
    (from - {x}, to + {x})
  }

  /** Moving `x` back undoes the move. */
  lemma MoveBack(from: set<Leaf>, to: set<Leaf>, x: Leaf)
    requires x in from && x !in to
    ensures Move(Move(from, to, x).1, Move(from, to, x).0, x) == (to, from)
  {
    assert to + {x} - {x} == to;
    assert from - {x} + {x} == from;
  }

  /** A move keeps a bipartition of `V` a bipartition of `V` and shifts one
      element between the sizes. */
  lemma MoveKeepsBipartition(A: set<Leaf>, B: set<Leaf>, V: set<Leaf>, x: Leaf)
    requires IsBipartition(A, B, V) && x in A
    ensures IsBipartition(Move(A, B, x).0, Move(A, B, x).1, V)
    ensures |Move(A, B, x).0| == |A| - 1 && |Move(A, B, x).1| == |B| + 1
  {
  }

  // ---------------------------------------------------------------------
  // greedy_bipartition
  // ---------------------------------------------------------------------

  /** The cost of moving `y` from V2 to V1. */
  function MoveCost(V1: set<Leaf>, V2: set<Leaf>, y: Leaf, cost: CostFn): nat
  {
    cost([V1 + {y}, V2 - {y}])
  }

  /** The trial loop of one greedy step: move each candidate from V2 to V1,
      evaluate, move it back. Returns the least trial cost and, in visiting
      order, every candidate that reaches it; the sides come back unchanged. */
  method GreedyTrials(V1: set<Leaf>, V2: set<Leaf>, remaining: set<Leaf>, cost: CostFn)
    returns (bestLocal: nat, bestX: seq<Leaf>, W1: set<Leaf>, W2: set<Leaf>)
    requires remaining != {} && remaining <= V2 && V1 !! V2
    ensures W1 == V1 && W2 == V2
    ensures |bestX| > 0
    ensures forall k :: 0 <= k < |bestX| ==> bestX[k] in remaining && MoveCost(V1, V2, bestX[k], cost) == bestLocal
    ensures forall y :: y in remaining ==> bestLocal <= MoveCost(V1, V2, y, cost)
    ensures forall y :: y in remaining && MoveCost(V1, V2, y, cost) == bestLocal ==> y in bestX
  {
    W1, W2 := V1, V2;
    var best: ExtCost := Inf;
    bestX := [];
    var todo := remaining;
    while todo != {}
      invariant todo <= remaining && W1 == V1 && W2 == V2
      invariant best.Inf? <==> todo == remaining
      invariant best.Inf? ==> bestX == []
      invariant best.Fin? ==> |bestX| > 0
      invariant forall k :: 0 <= k < |bestX| ==> bestX[k] in remaining - todo && MoveCost(V1, V2, bestX[k], cost) == best.n
      invariant forall y :: y in remaining - todo ==> best.Fin? && best.n <= MoveCost(V1, V2, y, cost)
      invariant forall y :: y in remaining - todo && MoveCost(V1, V2, y, cost) == best.n ==> y in bestX
      decreases todo
    {
      ghost var w := Pick(todo);
      var x :| x in todo;
      var m := Move(W2, W1, x);
      W2, W1 := m.0, m.1;
      var c := cost([W1, W2]);
      assert c == MoveCost(V1, V2, x, cost);
      if Below(c, best) {
        best, bestX := Fin(c), [x];
      } else if best == Fin(c) {
        bestX := bestX + [x];
      }
      MoveBack(V2, V1, x);
      m := Move(W1, W2, x);
      W1, W2 := m.0, m.1;
      todo := todo - {x};
    }
    bestLocal := best.n;
  }

  /** One greedy step from (A, B) to (A', B'): move one element of B to A
      whose move costs no more than moving any other element of B. */
  ghost predicate GreedyStep(A: set<Leaf>, B: set<Leaf>, A': set<Leaf>, B': set<Leaf>, cost: CostFn)
  {
    exists x :: x in B && A' == A + {x} && B' == B - {x} &&
      forall y :: y in B ==> MoveCost(A, B, x, cost) <= MoveCost(A, B, y, cost)
  }

  /** The recorded bipartitions of the greedy sweep: step k has k+1 elements
      on the first side and follows from the previous one by a greedy step. */
  ghost predicate GreedyTrace(steps: seq<(set<Leaf>, set<Leaf>)>, V: set<Leaf>, cost: CostFn)
  {
    && (forall k :: 0 <= k < |steps| ==> IsBipartition(steps[k].0, steps[k].1, V) && |steps[k].0| == k + 1)
    && (|steps| > 0 ==> GreedyStep({}, V, steps[0].0, steps[0].1, cost))
    && (forall k :: 0 < k < |steps| ==> GreedyStep(steps[k - 1].0, steps[k - 1].1, steps[k].0, steps[k].1, cost))
  }

  /** One pass of the outer loop of `greedy_bipartition`: run the trials,
      pick one of the cheapest candidates and move it from V2 to V1. */
  method GreedyAdvance(V: set<Leaf>, V1: set<Leaf>, V2: set<Leaf>, cost: CostFn)
    returns (bestLocal: nat, A: set<Leaf>, B: set<Leaf>)
    requires IsBipartition(V1, V2, V) && V2 != {}
    ensures GreedyStep(V1, V2, A, B, cost)
    ensures IsBipartition(A, B, V) && |A| == |V1| + 1 && |B| == |V2| - 1
    ensures bestLocal == cost([A, B])
  {
    var bestX, W1, W2;
    bestLocal, bestX, W1, W2 := GreedyTrials(V1, V2, V2, cost);
    assert bestX[0] in bestX;
    var x :| x in bestX;
    var m := Move(W2, W1, x);
    B, A := m.0, m.1;
    assert GreedyStep(V1, V2, A, B, cost);
  }

  /** The bookkeeping of the least cost seen: `bestBp` holds recorded steps
      of cost `best`, and no recorded step costs less. */
  ghost predicate BestSoFar(best: ExtCost, bestBp: seq<(set<Leaf>, set<Leaf>)>, steps: seq<(set<Leaf>, set<Leaf>)>, cost: CostFn)
  {
    && (best.Inf? <==> steps == [])
    && (best.Inf? ==> bestBp == [])
    && (best.Fin? ==> |bestBp| > 0)
    && (forall k :: 0 <= k < |bestBp| ==> bestBp[k] in steps && cost([bestBp[k].0, bestBp[k].1]) == best.n)
    && (forall k :: 0 <= k < |steps| ==> best.Fin? && best.n <= cost([steps[k].0, steps[k].1]))
  }

  /** Recording one more step keeps the bookkeeping. */
  method RecordStep(best: ExtCost, bestBp: seq<(set<Leaf>, set<Leaf>)>, ghost steps: seq<(set<Leaf>, set<Leaf>)>,
                    c: nat, bp: (set<Leaf>, set<Leaf>), cost: CostFn)
    returns (best': ExtCost, bestBp': seq<(set<Leaf>, set<Leaf>)>)
    requires BestSoFar(best, bestBp, steps, cost) && c == cost([bp.0, bp.1])
    ensures BestSoFar(best', bestBp', steps + [bp], cost)
  {
    best', bestBp' := best, bestBp;
    if Below(c, best) {
      best', bestBp' := Fin(c), [bp];
    } else if best == Fin(c) {
      bestBp' := bestBp + [bp];
    }
    ghost var steps' := steps + [bp];
    assert forall k :: 0 <= k < |steps| ==> steps'[k] == steps[k];
  }

  /** A greedy step from the last recorded bipartition extends the trace. */
  lemma TraceExtend(steps: seq<(set<Leaf>, set<Leaf>)>, V: set<Leaf>, cost: CostFn,
                    A: set<Leaf>, B: set<Leaf>, A': set<Leaf>, B': set<Leaf>)
    requires GreedyTrace(steps, V, cost)
    requires if steps == [] then A == {} && B == V else steps[|steps| - 1] == (A, B)
    requires GreedyStep(A, B, A', B', cost) && IsBipartition(A', B', V) && |A'| == |steps| + 1
    ensures GreedyTrace(steps + [(A', B')], V, cost)
  {
    var steps' := steps + [(A', B')];
    assert forall k :: 0 <= k < |steps| ==> steps'[k] == steps[k];
  }

  /** No recorded bipartition costs less than `c`. */
  ghost predicate NoneCheaper(c: nat, steps: seq<(set<Leaf>, set<Leaf>)>, cost: CostFn)
  {
    forall k :: 0 <= k < |steps| ==> c <= cost([steps[k].0, steps[k].1])
  }

  /** A pick from the recorded least-cost bipartitions is a recorded step of
      least cost. */
  lemma BestIsLeast(best: ExtCost, bestBp: seq<(set<Leaf>, set<Leaf>)>, steps: seq<(set<Leaf>, set<Leaf>)>,
                    cost: CostFn, bp: (set<Leaf>, set<Leaf>))
    requires BestSoFar(best, bestBp, steps, cost) && bp in bestBp && steps != []
    ensures best.Fin? && bp in steps && best.n == cost([bp.0, bp.1])
    ensures NoneCheaper(best.n, steps, cost)
  {
    var k :| 0 <= k < |bestBp| && bestBp[k] == bp;
  }

  /** `greedy_bipartition(V, f_cost)`: a ValueError below two elements;
      otherwise |V|-1 greedy steps, each moving a cheapest element from the
      second side to the first, and one of the recorded bipartitions of least
      cost is returned with that cost. */
  method GreedyBipartitionRun(V: set<Leaf>, cost: CostFn)
    returns (r: Result<(nat, (set<Leaf>, set<Leaf>))>, ghost steps: seq<(set<Leaf>, set<Leaf>)>)
    ensures r.Failure? <==> |V| < 2
    ensures r.Failure? ==> r.error.ValueError?
    ensures r.Success? ==> |steps| == |V| - 1 && GreedyTrace(steps, V, cost)
    ensures r.Success? ==> r.value.1 in steps && r.value.0 == cost([r.value.1.0, r.value.1.1])
    ensures r.Success? ==> NoneCheaper(r.value.0, steps, cost)
    ensures r.Success? ==> IsBipartition(r.value.1.0, r.value.1.1, V) && r.value.1.0 != {} && r.value.1.1 != {}
  {
    steps := [];
    if |V| < 2 {
      return Failure(ValueError("iterable must have >=2 elements")), steps;
    }
    var V1, V2 := {}, V;
    var bestCost: ExtCost := Inf;
    var bestBp: seq<(set<Leaf>, set<Leaf>)> := [];
    for i := 0 to |V| - 1
      invariant IsBipartition(V1, V2, V) && |V1| == i && |V2| == |V| - i
      invariant |steps| == i && GreedyTrace(steps, V, cost)
      invariant i > 0 ==> steps[i - 1] == (V1, V2)
      invariant BestSoFar(bestCost, bestBp, steps, cost)
    {
      ghost var A, B := V1, V2;
      var bestLocal;
      bestLocal, V1, V2 := GreedyAdvance(V, V1, V2, cost);
      TraceExtend(steps, V, cost, A, B, V1, V2);
      bestCost, bestBp := RecordStep(bestCost, bestBp, steps, bestLocal, (V1, V2), cost);
      steps := steps + [(V1, V2)];
    }
    assert bestBp[0] in bestBp;
    var bp :| bp in bestBp;
    BestIsLeast(bestCost, bestBp, steps, cost, bp);
    r := Success((bestCost.n, bp));
  }

  // ---------------------------------------------------------------------
  // gradient_walk_bipartition
  // ---------------------------------------------------------------------

  /** `list(V)`: the elements of a set in some order, each once. */
  method ListOf(V: set<Leaf>) returns (s: seq<Leaf>)
    ensures |s| == |V| && (forall x :: x in s <==> x in V)
    ensures forall i, j :: 0 <= i < j < |s| ==> s[i] != s[j]
  {
    s := [];
    var rest := V;
    while rest != {}
      invariant rest <= V && |s| + |rest| == |V|
      invariant forall x :: x in s <==> x in V - rest
      invariant forall i, j :: 0 <= i < j < |s| ==> s[i] != s[j]
      decreases rest
    {
      ghost var w := Pick(rest);
      var x :| x in rest;
      s := s + [x];
      rest := rest - {x};
    }
  }

  /** The cost list that a trial move of `x` evaluates: `[V1, V2]` with V1
      the side `x` leaves and V2 the side it joins. */
  function TrialArg(P0: set<Leaf>, P1: set<Leaf>, x: Leaf): seq<set<Leaf>>
  {
    if x in P0 then [P0 - {x}, P1 + {x}] else [P1 - {x}, P0 + {x}]
  }

  /** The walk state: two disjoint sides covering `V` and `lookup[x]` the
      side of `x`. */
  ghost predicate WalkState(P0: set<Leaf>, P1: set<Leaf>, lookup: map<Leaf, nat>, V: set<Leaf>)
  {
    IsBipartition(P0, P1, V) && lookup == LookupOf(P0, V)
  }

  /** The side index of every element of `V`: 0 on `P0`, 1 elsewhere. */
  function LookupOf(P0: set<Leaf>, V: set<Leaf>): map<Leaf, nat>
  {
    map x | x in V :: if x in P0 then 0 else 1
  }

  /** The side `x` is on has more than one element, so moving `x` does not
      empty it. */
  predicate Movable(P0: set<Leaf>, P1: set<Leaf>, x: Leaf)
  {
    if x in P0 then |P0| > 1 else |P1| > 1
  }

  /** The random start: the k-th element of a random order goes to side 0
      iff k <= len(V)/2. */
  method RandomStart(V: set<Leaf>) returns (P0: set<Leaf>, P1: set<Leaf>, lookup: map<Leaf, nat>)
    ensures WalkState(P0, P1, lookup, V)
    ensures |P0| == SideZeroCount(|V|, |V|)
  {
    P0, P1, lookup := {}, {}, map[];
    var rest := V;
    ghost var done: set<Leaf> := {};
    var k := 0;
    while rest != {}
      invariant done + rest == V && done !! rest && k == |done|
      invariant WalkState(P0, P1, lookup, done)
      invariant |P0| == SideZeroCount(k, |V|)
      decreases rest
    {
      ghost var w := Pick(rest);
      var x :| x in rest;
      var i := if 2 * k <= |V| then 0 else 1;
      WalkStateAdd(P0, P1, lookup, done, x, i);
      if i == 0 {
        P0 := P0 + {x};
      } else {
        P1 := P1 + {x};
      }
      lookup := lookup[x := i];
      rest := rest - {x};
      done := done + {x};
      k := k + 1;
    }
  }

  /** How many of the first k elements of a random order of n go to side 0:
      those at positions j with j <= n/2. */
  function SideZeroCount(k: nat, n: nat): nat
  {
    if k == 0 then 0 else SideZeroCount(k - 1, n) + (if 2 * (k - 1) <= n then 1 else 0)
  }

  /** Up to position n/2 every element goes to side 0, none after it. */
  lemma {:induction false} SideZeroCountClosed(k: nat, n: nat)
    ensures SideZeroCount(k, n) == if k <= n / 2 + 1 then k else n / 2 + 1
  {
    if k > 0 {
      SideZeroCountClosed(k - 1, n);
    }
  }

  lemma WalkStateAdd(P0: set<Leaf>, P1: set<Leaf>, lookup: map<Leaf, nat>, D: set<Leaf>, x: Leaf, i: nat)
    requires WalkState(P0, P1, lookup, D) && x !in D && i < 2
    ensures i == 0 ==> WalkState(P0 + {x}, P1, lookup[x := i], D + {x}) && |P0 + {x}| == |P0| + 1
    ensures i == 1 ==> WalkState(P0, P1 + {x}, lookup[x := i], D + {x})
  {
    if i == 0 {
      assert lookup[x := i] == LookupOf(P0 + {x}, D + {x});
    } else {
      assert lookup[x := i] == LookupOf(P0, D + {x});
    }
  }

  /** A random start puts |V|/2 + 1 of |V| >= 2 elements on side 0, so side 1
      is empty exactly when |V| = 2 (both elements start on side 0). */
  lemma RandomStartSides(n: nat)
    requires n >= 2
    ensures SideZeroCount(n, n) == n / 2 + 1
    ensures 0 < SideZeroCount(n, n) <= n
    ensures n - SideZeroCount(n, n) == 0 <==> n == 2
  {
    SideZeroCountClosed(n, n);
  }

  /** The trial loop of the gradient walk over `V` in list order: skip an
      element alone on its side, otherwise move it over, evaluate and move it
      back. Returns the least trial cost (infinite if nothing may move) and
      the elements reaching it; the sides come back unchanged. */
  method WalkTrials(order: seq<Leaf>, V: set<Leaf>, P0: set<Leaf>, P1: set<Leaf>, lookup: map<Leaf, nat>, cost: CostFn)
    returns (best: ExtCost, bestX: seq<Leaf>, Q0: set<Leaf>, Q1: set<Leaf>)
    requires WalkState(P0, P1, lookup, V) && (forall x :: x in order <==> x in V)
    ensures Q0 == P0 && Q1 == P1
    ensures best.Fin? ==> |bestX| > 0
    ensures forall k :: 0 <= k < |bestX| ==>
      (bestX[k] in V && Movable(P0, P1, bestX[k]) && best == Fin(cost(TrialArg(P0, P1, bestX[k]))))
    ensures forall x :: x in V && Movable(P0, P1, x) ==> best.Fin? && best.n <= cost(TrialArg(P0, P1, x))
  {
    Q0, Q1 := P0, P1;
    best, bestX := Inf, [];
    for j := 0 to |order|
      invariant Q0 == P0 && Q1 == P1
      invariant best.Fin? ==> |bestX| > 0
      invariant forall k :: 0 <= k < |bestX| ==>
        (bestX[k] in V && Movable(P0, P1, bestX[k]) && best == Fin(cost(TrialArg(P0, P1, bestX[k]))))
      invariant forall k :: 0 <= k < j && Movable(P0, P1, order[k]) ==>
        best.Fin? && best.n <= cost(TrialArg(P0, P1, order[k]))
    {
      var x := order[j];
      var i := lookup[x];
      if (i == 0 && |Q0| == 1) || (i == 1 && |Q1| == 1) {
        continue;
      }
      var c;
      c, Q0, Q1 := TrialMove(V, Q0, Q1, lookup, x, cost);
      if Below(c, best) {
        best, bestX := Fin(c), [x];
      } else if best == Fin(c) {
        bestX := bestX + [x];
      }
    }
    forall x | x in V && Movable(P0, P1, x) ensures best.Fin? && best.n <= cost(TrialArg(P0, P1, x)) {
      var k :| 0 <= k < |order| && order[k] == x;
    }
  }

  /** One trial of the walk: move `x` to the other side, evaluate the cost
      of [its old side, its new side], move it back. */
  method TrialMove(V: set<Leaf>, P0: set<Leaf>, P1: set<Leaf>, lookup: map<Leaf, nat>, x: Leaf, cost: CostFn)
    returns (c: nat, Q0: set<Leaf>, Q1: set<Leaf>)
    requires WalkState(P0, P1, lookup, V) && x in V
    ensures c == cost(TrialArg(P0, P1, x))
    ensures Q0 == P0 && Q1 == P1
  {
    Q0, Q1 := P0, P1;
    if lookup[x] == 0 {
      var m := Move(Q0, Q1, x);
      Q0, Q1 := m.0, m.1;
      c := cost([Q0, Q1]);
      MoveBack(P0, P1, x);
      m := Move(Q1, Q0, x);
      Q1, Q0 := m.0, m.1;
    } else {
      var m := Move(Q1, Q0, x);
      Q1, Q0 := m.0, m.1;
      c := cost([Q1, Q0]);
      MoveBack(P1, P0, x);
      m := Move(Q0, Q1, x);
      Q0, Q1 := m.0, m.1;
    }
  }

  /** The cost does not depend on which side is listed first. */
  ghost predicate Symmetric(cost: CostFn)
  {
    forall A: set<Leaf>, B: set<Leaf> :: cost([A, B]) == cost([B, A])
  }

  /** Each entry is smaller than the one before. */
  ghost predicate StrictlyDecreasing(s: seq<nat>)
  {
    forall i :: 0 < i < |s| ==> s[i] < s[i - 1]
  }

  /** Appending a value below the last entry keeps a sequence strictly
      decreasing. */
  lemma DecreasingSnoc(s: seq<nat>, c: nat)
    requires StrictlyDecreasing(s) && |s| > 0 && c < s[|s| - 1]
    ensures StrictlyDecreasing(s + [c])
  {
    var s' := s + [c];
    assert forall i :: 0 <= i < |s| ==> s'[i] == s[i];
  }

  /** The accepted move of the walk: `x` changes sides and `lookup[x]`
      becomes `(lookup[x] + 1) % 2`. */
  method AcceptMove(V: set<Leaf>, P0: set<Leaf>, P1: set<Leaf>, lookup: map<Leaf, nat>, x: Leaf)
    returns (Q0: set<Leaf>, Q1: set<Leaf>, lookup': map<Leaf, nat>)
    requires WalkState(P0, P1, lookup, V) && x in V && Movable(P0, P1, x)
    ensures WalkState(Q0, Q1, lookup', V)
    ensures TrialArg(P0, P1, x) == [Q0, Q1] || TrialArg(P0, P1, x) == [Q1, Q0]
    ensures P0 != {} && P1 != {} ==> Q0 != {} && Q1 != {}
  {
    var i := lookup[x];
    if i == 0 {
      var m := Move(P0, P1, x);
      Q0, Q1 := m.0, m.1;
    } else {
      var m := Move(P1, P0, x);
      Q1, Q0 := m.0, m.1;
    }
    lookup' := lookup[x := (i + 1) % 2];
  }

  /** The start of the walk: a random bipartition when `initial` is absent
      or empty, the given one when it has two parts, else a ValueError. */
  method StartWalk(V: set<Leaf>, initial: Option<seq<set<Leaf>>>)
    returns (ok: bool, P0: set<Leaf>, P1: set<Leaf>, lookup: map<Leaf, nat>)
    requires initial.Some? && |initial.value| == 2 ==> IsBipartition(initial.value[0], initial.value[1], V)
    ensures ok <==> initial.None? || |initial.value| == 0 || |initial.value| == 2
    ensures ok ==> WalkState(P0, P1, lookup, V)
    ensures ok && initial.Some? && |initial.value| == 2 ==> (P0, P1) == (initial.value[0], initial.value[1])
    ensures ok && (initial.None? || |initial.value| == 0) ==> |P0| == SideZeroCount(|V|, |V|)
  {
    if initial.None? || |initial.value| == 0 {
      ok := true;
      P0, P1, lookup := RandomStart(V);
    } else if |initial.value| == 2 {
      ok := true;
      P0, P1 := initial.value[0], initial.value[1];
      lookup := map x | x in V :: if x in P0 then 0 else 1;
    } else {
      ok, P0, P1, lookup := false, {}, {}, map[];
    }
  }

  /** The loop of `gradient_walk_bipartition` from the bipartition
      (P0, P1): while some allowed move lowers the cost, make one of the
      cheapest. It ends in a bipartition that no single allowed move
      improves, through strictly decreasing costs, and never empties a
      side that was not empty. */
  method Descend(V: set<Leaf>, cost: CostFn, order: seq<Leaf>, P0: set<Leaf>, P1: set<Leaf>, lookup: map<Leaf, nat>)
    returns (bestCost: nat, bestBp: (set<Leaf>, set<Leaf>), ghost costs: seq<nat>)
    requires WalkState(P0, P1, lookup, V) && (forall x :: x in order <==> x in V)
    ensures IsBipartition(bestBp.0, bestBp.1, V)
    ensures forall x :: x in V && Movable(bestBp.0, bestBp.1, x) ==> bestCost <= cost(TrialArg(bestBp.0, bestBp.1, x))
    ensures |costs| > 0 && costs[0] == cost([P0, P1]) && costs[|costs| - 1] == bestCost && StrictlyDecreasing(costs)
    ensures Symmetric(cost) ==> bestCost == cost([bestBp.0, bestBp.1])
    ensures P0 != {} && P1 != {} ==> bestBp.0 != {} && bestBp.1 != {}
  {
    var Q0, Q1, look := P0, P1, lookup;
    bestCost := cost([Q0, Q1]);
    bestBp := (Q0, Q1);
    ghost var arg: seq<set<Leaf>> := [Q0, Q1];
    costs := [bestCost];
    while true
      invariant WalkState(Q0, Q1, look, V)
      invariant bestBp == (Q0, Q1)
      invariant bestCost == cost(arg) && (arg == [Q0, Q1] || arg == [Q1, Q0])
      invariant P0 != {} && P1 != {} ==> Q0 != {} && Q1 != {}
      invariant |costs| > 0 && costs[0] == cost([P0, P1])
      invariant costs[|costs| - 1] == bestCost && StrictlyDecreasing(costs)
      decreases bestCost
    {
      var bestLocal, bestX, R0, R1 := WalkTrials(order, V, Q0, Q1, look, cost);
      if bestLocal.Fin? && bestLocal.n < bestCost {
        assert bestX[0] in bestX;
        var x :| x in bestX;
        arg := TrialArg(Q0, Q1, x);
        Q0, Q1, look := AcceptMove(V, Q0, Q1, look, x);
        DecreasingSnoc(costs, bestLocal.n);
        bestCost := bestLocal.n;
        bestBp := (Q0, Q1);
        costs := costs + [bestCost];
      } else {
        break;
      }
    }
  }

  /** `gradient_walk_bipartition(V, f_cost, initial_bipartition)`: a
      ValueError below two elements or for an initial list that is neither
      empty/absent nor of length 2; otherwise start from the given or a random
      bipartition and, while some allowed move lowers the cost, make one of
      the cheapest. The result is a bipartition of `V` that no single allowed
      move improves, reached through strictly decreasing costs. */
  method GradientWalkBipartition(V: set<Leaf>, cost: CostFn, initial: Option<seq<set<Leaf>>>)
    returns (r: Result<(nat, (set<Leaf>, set<Leaf>))>, ghost start: (set<Leaf>, set<Leaf>), ghost costs: seq<nat>)
    requires initial.Some? && |initial.value| == 2 ==> IsBipartition(initial.value[0], initial.value[1], V)
    ensures r.Failure? <==> |V| < 2 || (initial.Some? && |initial.value| != 0 && |initial.value| != 2)
    ensures r.Failure? ==> r.error.ValueError?
    ensures r.Success? ==> IsBipartition(start.0, start.1, V)
    ensures r.Success? && initial.Some? && |initial.value| == 2 ==> start == (initial.value[0], initial.value[1])
    ensures r.Success? && (initial.None? || |initial.value| == 0) ==> |start.0| == SideZeroCount(|V|, |V|)
    ensures r.Success? ==> IsBipartition(r.value.1.0, r.value.1.1, V)
    ensures r.Success? ==> forall x :: x in V && Movable(r.value.1.0, r.value.1.1, x) ==>
      r.value.0 <= cost(TrialArg(r.value.1.0, r.value.1.1, x))
    ensures r.Success? ==>
      (|costs| > 0 && costs[0] == cost([start.0, start.1]) && costs[|costs| - 1] == r.value.0 && StrictlyDecreasing(costs))
    ensures r.Success? && Symmetric(cost) ==> r.value.0 == cost([r.value.1.0, r.value.1.1])
    ensures r.Success? && start.0 != {} && start.1 != {} ==> r.value.1.0 != {} && r.value.1.1 != {}
  {
    start, costs := ({}, {}), [];
    if |V| < 2 {
      return Failure(ValueError("iterable must have >=2 elements")), start, costs;
    }
    var order := ListOf(V);
    var ok, P0, P1, lookup := StartWalk(V, initial);
    if !ok {
      return Failure(ValueError("not a bipartition")), start, costs;
    }
    start := (P0, P1);
    var bestCost, bestBp;
    bestCost, bestBp, costs := Descend(V, cost, order, P0, P1, lookup);
    r := Success((bestCost, bestBp));
  }
}
