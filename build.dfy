/** The `Build2` tree builder of src/bmgedit/Build.py: BUILD (Aho et al.)
    over a triple list, its MTT extension with forbidden triples, and the
    minimum-cost bipartition used when the auxiliary graph is connected and
    inconsistency is allowed. The graph algorithms `nx.stoer_wagner` and
    `Karger` are function-typed fields constrained by `OraclesOk`. */
module Build {
  import opened Wrappers
  import opened Triples
  import opened AhoGraph
  import opened Mtt
  import opened GreedyBipartition
  import opened Trees
  import opened Consistency

  /** The four values `bipart_method` accepts. */
  datatype BipartMethod = Mincut | KargerCut | Greedy | GradientWalk

  function MethodName(m: BipartMethod): string
  {
    match m
    case Mincut => "mincut"
    case KargerCut => "karger"
    case Greedy => "greedy"
    case GradientWalk => "gradient_walk"
  }

  /** The constructor's check of `bipart_method`: one of the four names, or
      a ValueError. */
  function ParseBipartMethod(name: string): (r: Result<BipartMethod>)
    ensures r.Success? <==> name in {"mincut", "karger", "greedy", "gradient_walk"}
    ensures r.Success? ==> MethodName(r.value) == name
    ensures r.Failure? ==> r.error.ValueError?
  {
    if name == "mincut" then Success(Mincut)
    else if name == "karger" then Success(KargerCut)
    else if name == "greedy" then Success(Greedy)
    else if name == "gradient_walk" then Success(GradientWalk)
    else Failure(ValueError("unknown bipartition method '" + name + "'"))
  }

  /** Parsing the name of a method gives back that method. */
  lemma ParseMethodName(m: BipartMethod)
    ensures ParseBipartMethod(MethodName(m)) == Success(m)
  {
  }

  /** Every triple of `R` names three different leaves. */
  predicate AllDistinct(R: seq<Triple>)
  {
    forall t :: t in R ==> Distinct(t)
  }

  /** Two non-empty sides splitting `V`. */
  predicate SplitsInTwo(bp: (set<Leaf>, set<Leaf>), V: set<Leaf>)
  {
    IsBipartition(bp.0, bp.1, V) && bp.0 != {} && bp.1 != {}
  }

  /** All leaves in the blocks of `P`. */
  function Flatten(P: set<set<Leaf>>): set<Leaf>
  {
    set B, x | B in P && x in B :: x
  }

  class Build2 {
    const R: seq<Triple>
    var L: set<Leaf>
    /** Forbidden triples; an empty list means plain BUILD. */
    const F: seq<Triple>
    const allowInconsistency: bool
    const bipartMethod: BipartMethod
    /** `cost_function` with `cost_function_args` bound. */
    const cost: CostFn
    const weightedMincut: bool
    /** `triple_weights`; the empty map stands for `None`. */
    const tripleWeights: map<Triple, int>
    /** `nx.stoer_wagner`: cut value and the two sides. */
    const stoerWagner: Graph -> (int, (set<Leaf>, set<Leaf>))
    /** The bipartitions `Karger(G).generate()` yields. */
    const karger: Graph -> seq<(set<Leaf>, set<Leaf>)>
    var totalCost: int

    /** What the builder needs of the two graph algorithms: Stoer-Wagner
        splits a connected graph of at least two vertices in two non-empty
        sides; Karger yields at least one such split of any such graph. */
    ghost predicate OraclesOk()
    {
      && (forall G: Graph :: |G.V| >= 2 && Connected(G.V, G.W.Keys) ==> SplitsInTwo(stoerWagner(G).1, G.V))
      && (forall G: Graph :: |G.V| >= 2 ==> |karger(G)| > 0)
      && (forall G: Graph, k :: |G.V| >= 2 && 0 <= k < |karger(G)| ==> SplitsInTwo(karger(G)[k], G.V))
    }

    /** `Build2(R, L, F, ...)` with an already checked method; `total_cost`
        starts at 0. */
    constructor (R: seq<Triple>, L: set<Leaf>, F: seq<Triple>, allowInconsistency: bool,
                 bipartMethod: BipartMethod, cost: CostFn, weightedMincut: bool,
                 tripleWeights: map<Triple, int>,
                 stoerWagner: Graph -> (int, (set<Leaf>, set<Leaf>)),
                 karger: Graph -> seq<(set<Leaf>, set<Leaf>)>)
      ensures this.R == R && this.L == L && this.F == F
      ensures this.allowInconsistency == allowInconsistency && this.bipartMethod == bipartMethod
      ensures this.cost == cost && this.weightedMincut == weightedMincut && this.tripleWeights == tripleWeights
      ensures this.stoerWagner == stoerWagner && this.karger == karger
      ensures totalCost == 0
    {
      this.R, this.L, this.F := R, L, F;
      this.allowInconsistency, this.bipartMethod := allowInconsistency, bipartMethod;
      this.cost, this.weightedMincut, this.tripleWeights := cost, weightedMincut, tripleWeights;
      this.stoerWagner, this.karger := stoerWagner, karger;
      totalCost := 0;
    }

    /** `Build2.__init__`: a ValueError for an unknown method name, else a
        builder holding the arguments. */
    static method Create(R: seq<Triple>, L: set<Leaf>, F: seq<Triple>, allowInconsistency: bool,
                         methodName: string, cost: CostFn, weightedMincut: bool,
                         tripleWeights: map<Triple, int>,
                         stoerWagner: Graph -> (int, (set<Leaf>, set<Leaf>)),
                         karger: Graph -> seq<(set<Leaf>, set<Leaf>)>)
      returns (r: Result<Build2>)
      ensures r.Failure? <==> ParseBipartMethod(methodName).Failure?
      ensures r.Failure? ==> r.error.ValueError?
      ensures r.Success? ==> fresh(r.value) && r.value.bipartMethod == ParseBipartMethod(methodName).value
      ensures r.Success? ==> r.value.R == R && r.value.L == L && r.value.F == F && r.value.allowInconsistency == allowInconsistency
    {
      var m := ParseBipartMethod(methodName);
      if m.Failure? {
        return Failure(m.error);
      }
      var b := new Build2(R, L, F, allowInconsistency, m.value, cost, weightedMincut, tripleWeights, stoerWagner, karger);
      return Success(b);
    }

    /** `build_tree`: reset `total_cost`, run MTT when there are forbidden
        triples and BUILD otherwise. On one or two leaves the trivial case
        pops them from the builder's own leaf set. */
    method BuildTree() returns (T: Option<Tree>)
      requires OraclesOk() && Over(R, L) && Over(F, L) && WeightsCover(R, weightedMincut, tripleWeights)
      modifies this
      ensures T.Some? ==> Leaves(T.value) == old(L) && Phylogenetic(T.value)
      ensures old(L) == {} ==> T.None?
      ensures allowInconsistency && old(L) != {} ==> T.Some?
      ensures L == if |old(L)| <= 2 then {} else old(L)
      ensures !allowInconsistency ==> totalCost == 0
      ensures T.Some? && !allowInconsistency && AllDistinct(R) && AllDistinct(F) ==>
        (forall t :: t in R ==> Displays(T.value, t)) && (forall t :: t in F ==> !Displays(T.value, t))
      ensures !allowInconsistency && Compatible(R, F, old(L)) ==> T.Some?
      ensures !allowInconsistency && AllDistinct(R) && AllDistinct(F) ==> (T.Some? <==> Compatible(R, F, old(L)))
    {
      totalCost := 0;
      CompatibleConsistent(R, F, L);
      var rest;
      if F != [] {
        T, rest := Mtt(L, R, F);
      } else {
        T, rest := Aho(L, R);
      }
      if T.Some? && !allowInconsistency && AllDistinct(R) && AllDistinct(F) {
        TreeConsistent(T.value, R, F, L);
      }
      L := rest;
    }

    /** `_trivial_case`: one leaf gives that leaf, two leaves an inner node
        with the two leaves as children, popped from `L` in turn; `rest` is
        what the pops leave of `L`. Other sizes give `None` and pop nothing. */
    method TrivialCase(L: set<Leaf>) returns (T: Option<Tree>, rest: set<Leaf>)
      ensures |L| == 1 ==> T.Some? && T.value.LeafNode? && L == {T.value.leaf}
      ensures |L| == 2 ==>
        (T.Some? && T.value.Inner? && |T.value.children| == 2 &&
         T.value.children[0].LeafNode? && T.value.children[1].LeafNode? &&
         L == {T.value.children[0].leaf, T.value.children[1].leaf})
      ensures T.None? <==> |L| == 0 || |L| > 2
      ensures T.Some? ==> Leaves(T.value) == L && Phylogenetic(T.value)
      ensures rest == if |L| <= 2 then {} else L
    {
      rest := L;
      if |L| == 1 {
        ghost var w := Pick(rest);
        var x :| x in rest;
        rest := rest - {x};
        assert L == rest + {x};
        T := Some(LeafNode(x));
      } else if |L| == 2 {
        ghost var w := Pick(rest);
        var x :| x in rest;
        rest := rest - {x};
        assert L == rest + {x};
        ghost var v := Pick(rest);
        var y :| y in rest;
        rest := rest - {y};
        assert L == rest + {x, y};
        Cherry(x, y);
        T := Some(Inner([LeafNode(x), LeafNode(y)]));
      } else {
        T := None;
      }
    }

    /** `_aho`: below three leaves the trivial case; otherwise the connected
        components of the Aho graph (or, when there is only one and
        inconsistency is allowed, a bipartition) become the children, each
        built recursively from the triples inside it. Any failing child makes
        the whole call fail. */
    method Aho(L: set<Leaf>, R: seq<Triple>) returns (T: Option<Tree>, rest: set<Leaf>)
      requires OraclesOk() && Over(R, L) && WeightsCover(R, weightedMincut, tripleWeights)
      modifies this`totalCost
      decreases |L|, 2
      ensures T.Some? ==> Leaves(T.value) == L && Phylogenetic(T.value)
      ensures L == {} ==> T.None?
      ensures allowInconsistency && L != {} ==> T.Some?
      ensures !allowInconsistency && |L| >= 3 && Connected(L, AhoEdges(R)) ==> T.None?
      ensures !allowInconsistency ==> totalCost == old(totalCost)
      ensures T.Some? && !allowInconsistency && AllDistinct(R) ==> forall t :: t in R ==> Displays(T.value, t)
      ensures !allowInconsistency && Consistent(R, [], L) ==> T.Some?
      ensures !allowInconsistency && AllDistinct(R) ==> (T.Some? <==> Consistent(R, [], L))
      ensures rest == if |L| <= 2 then {} else L
    {
      if |L| <= 2 {
        T, rest := TrivialCase(L);
        SmallCase(T, R, [], L);
        return;
      }
      rest := L;
      PairLeavesWithin(R, L);
      var G := AhoGraphOf(R, L, weightedMincut, tripleWeights);
      var P := ConnectedComponents(G);
      AhoCompleteness(R, L, P);
      if |P| < 2 {
        OneComponentConnected(P, L, G.W.Keys);
        if !allowInconsistency {
          return None, rest;
        }
        var A, B, best, _ := Bipartition(L, G);
        P := TwoBlocks(A, B, L);
      } else {
        ManyComponentsDisconnected(P, L, G.W.Keys);
      }
      T := AhoChildren(L, R, P);
      if T.Some? && !allowInconsistency && AllDistinct(R) {
        TreeConsistent(T.value, R, [], L);
      }
    }

    /** The child loop of `_aho`: one subtree per block of `P`, built from
        the triples inside the block; the first failing block fails the
        node. */
    method AhoChildren(L: set<Leaf>, R: seq<Triple>, P: set<set<Leaf>>) returns (T: Option<Tree>)
      requires OraclesOk() && Over(R, L) && WeightsCover(R, weightedMincut, tripleWeights)
      requires IsPartition(P, L) && |P| >= 2
      requires !allowInconsistency ==> EdgesInsideBlocks(P, AhoEdges(R))
      modifies this`totalCost
      decreases |L|, 1
      ensures T.Some? ==> Leaves(T.value) == L && Phylogenetic(T.value)
      ensures allowInconsistency ==> T.Some?
      ensures !allowInconsistency ==> totalCost == old(totalCost)
      ensures T.Some? && !allowInconsistency && AllDistinct(R) ==> forall t :: t in R ==> Displays(T.value, t)
      ensures !allowInconsistency && Consistent(R, [], L) ==> T.Some?
    {
      var children: seq<Tree> := [];
      var todo := P;
      ghost var done: set<set<Leaf>> := {};
      while todo != {}
        invariant todo <= P && done == P - todo
        invariant Leaves(Inner(children)) == Flatten(done)
        invariant |children| == |done| && Forest(children)
        invariant !allowInconsistency ==> totalCost == old(totalCost)
        invariant !allowInconsistency && AllDistinct(R) ==>
          forall t :: t in R && t.a in Flatten(done) ==> Splits(Inner(children), t)
        decreases todo
      {
        ghost var w := Pick(todo);
        var s :| s in todo;
        PartSmaller(P, L, s);
        var Ti := AhoBlock(L, R, s);
        if Ti.None? {
          return None;
        }
        ChildStep(P, L, done, s, children, Ti.value);
        if !allowInconsistency && AllDistinct(R) {
          DisplayStep(P, L, R, done, s, children, Ti.value, Restriction(R, s));
        }
        DoneStep(P, todo, done, s);
        children := children + [Ti.value];
        done := done + {s};
        todo := todo - {s};
      }
      assert done == P;
      FlattenPartition(P, L);
      T := Some(Inner(children));
    }

    /** One pass of `_aho`'s child loop: the triples inside block `s`, and
        the subtree built from them. */
    method AhoBlock(L: set<Leaf>, R: seq<Triple>, s: set<Leaf>) returns (T: Option<Tree>)
      requires OraclesOk() && Over(R, L) && WeightsCover(R, weightedMincut, tripleWeights)
      requires s <= L && s != {} && |s| < |L|
      modifies this`totalCost
      decreases |L|, 0
      ensures T.Some? ==> Leaves(T.value) == s && Phylogenetic(T.value)
      ensures allowInconsistency ==> T.Some?
      ensures !allowInconsistency ==> totalCost == old(totalCost)
      ensures T.Some? && !allowInconsistency && AllDistinct(R) ==> forall t :: t in Restriction(R, s) ==> Displays(T.value, t)
      ensures !allowInconsistency && Consistent(R, [], L) ==> T.Some?
    {
      var Ri := RestrictTriples(R, s);
      RestrictionCovers(R, s, weightedMincut, tripleWeights);
      RestrictConsistent(R, [], L, s);
      var rest;
      T, rest := Aho(s, Ri);
    }

    /** `_mtt`: as `_aho`, with the partition of `mtt_partition` (the finest
        one keeping the Aho edges inside blocks and separating no forbidden
        triple) and the forbidden triples restricted along with `R`. */
    method Mtt(L: set<Leaf>, R: seq<Triple>, F: seq<Triple>) returns (T: Option<Tree>, rest: set<Leaf>)
      requires OraclesOk() && Over(R, L) && Over(F, L)
      modifies this`totalCost
      decreases |L|, 2
      ensures T.Some? ==> Leaves(T.value) == L && Phylogenetic(T.value)
      ensures L == {} ==> T.None?
      ensures allowInconsistency && L != {} ==> T.Some?
      ensures !allowInconsistency && |L| >= 3 && (forall Q :: Admissible(Q, L, R, F) ==> |Q| < 2) ==> T.None?
      ensures !allowInconsistency ==> totalCost == old(totalCost)
      ensures T.Some? && !allowInconsistency && AllDistinct(R) && AllDistinct(F) ==>
        (forall t :: t in R ==> Displays(T.value, t)) && (forall t :: t in F ==> !Displays(T.value, t))
      ensures !allowInconsistency && Consistent(R, F, L) ==> T.Some?
      ensures !allowInconsistency && AllDistinct(R) && AllDistinct(F) ==> (T.Some? <==> Consistent(R, F, L))
      ensures rest == if |L| <= 2 then {} else L
    {
      if |L| <= 2 {
        T, rest := TrivialCase(L);
        SmallCase(T, R, F, L);
        return;
      }
      rest := L;
      var P := MttSplit(L, R, F);
      if P.None? {
        return None, rest;
      }
      T := MttChildren(L, R, F, P.value);
      if T.Some? && !allowInconsistency && AllDistinct(R) && AllDistinct(F) {
        TreeConsistent(T.value, R, F, L);
      }
    }

    /** The partition step of `_mtt`: the blocks of `mtt_partition`, or,
        when there is only one, a failure in strict mode and otherwise the
        bipartition of the auxiliary graph. */
    method MttSplit(L: set<Leaf>, R: seq<Triple>, F: seq<Triple>) returns (P: Option<set<set<Leaf>>>)
      requires OraclesOk() && Over(R, L) && Over(F, L) && |L| >= 3
      modifies this`totalCost
      ensures P.Some? ==> IsPartition(P.value, L) && |P.value| >= 2
      ensures P.Some? && !allowInconsistency ==> Admissible(P.value, L, R, F)
      ensures P.None? ==> !allowInconsistency && forall Q :: Admissible(Q, L, R, F) ==> |Q| < 2
      ensures allowInconsistency ==> P.Some?
      ensures !allowInconsistency && Consistent(R, F, L) ==> P.Some?
      ensures !allowInconsistency ==> totalCost == old(totalCost)
    {
      var Q, G := MttPartition(L, R, F);
      MttCompleteness(R, F, L, Q);
      if |Q| < 2 {
        OneComponentConnected(Q, L, G.W.Keys);
        if !allowInconsistency {
          FinestFewer(Q, L, R, F);
          return None;
        }
        var A, B, best, _ := Bipartition(L, G);
        Q := TwoBlocks(A, B, L);
      }
      P := Some(Q);
    }

    /** The child loop of `_mtt`: as `AhoChildren`, restricting both the
        triples and the forbidden triples to each block. */
    method MttChildren(L: set<Leaf>, R: seq<Triple>, F: seq<Triple>, P: set<set<Leaf>>) returns (T: Option<Tree>)
      requires OraclesOk() && Over(R, L) && Over(F, L)
      requires IsPartition(P, L) && |P| >= 2
      requires !allowInconsistency ==> Admissible(P, L, R, F)
      modifies this`totalCost
      decreases |L|, 1
      ensures T.Some? ==> Leaves(T.value) == L && Phylogenetic(T.value)
      ensures allowInconsistency ==> T.Some?
      ensures !allowInconsistency ==> totalCost == old(totalCost)
      ensures T.Some? && !allowInconsistency && AllDistinct(R) && AllDistinct(F) ==>
        (forall t :: t in R ==> Displays(T.value, t)) && (forall t :: t in F ==> !Displays(T.value, t))
      ensures !allowInconsistency && Consistent(R, F, L) ==> T.Some?
    {
      var children: seq<Tree> := [];
      var todo := P;
      ghost var done: set<set<Leaf>> := {};
      while todo != {}
        invariant todo <= P && done == P - todo
        invariant Leaves(Inner(children)) == Flatten(done)
        invariant |children| == |done| && Forest(children)
        invariant !allowInconsistency ==> totalCost == old(totalCost)
        invariant !allowInconsistency && AllDistinct(R) && AllDistinct(F) ==>
          && (forall t :: t in R && t.a in Flatten(done) ==> Splits(Inner(children), t))
          && (forall t :: t in F ==> !Splits(Inner(children), t))
        decreases todo
      {
        ghost var w := Pick(todo);
        var s :| s in todo;
        PartSmaller(P, L, s);
        var Ti := MttBlock(L, R, F, s);
        if Ti.None? {
          return None;
        }
        ChildStep(P, L, done, s, children, Ti.value);
        if !allowInconsistency && AllDistinct(R) && AllDistinct(F) {
          DisplayStep(P, L, R, done, s, children, Ti.value, Restriction(R, s));
          ForbiddenStep(P, L, F, s, children, Ti.value, Restriction(F, s));
        }
        DoneStep(P, todo, done, s);
        children := children + [Ti.value];
        done := done + {s};
        todo := todo - {s};
      }
      assert done == P;
      FlattenPartition(P, L);
      T := Some(Inner(children));
    }

    /** One pass of `_mtt`'s child loop: the triples and forbidden triples
        inside block `s`, and the subtree built from them. */
    method MttBlock(L: set<Leaf>, R: seq<Triple>, F: seq<Triple>, s: set<Leaf>) returns (T: Option<Tree>)
      requires OraclesOk() && Over(R, L) && Over(F, L)
      requires s <= L && s != {} && |s| < |L|
      modifies this`totalCost
      decreases |L|, 0
      ensures T.Some? ==> Leaves(T.value) == s && Phylogenetic(T.value)
      ensures allowInconsistency ==> T.Some?
      ensures !allowInconsistency ==> totalCost == old(totalCost)
      ensures T.Some? && !allowInconsistency && AllDistinct(R) && AllDistinct(F) ==>
        (forall t :: t in Restriction(R, s) ==> Displays(T.value, t)) &&
        (forall t :: t in Restriction(F, s) ==> !Displays(T.value, t))
      ensures !allowInconsistency && Consistent(R, F, L) ==> T.Some?
    {
      var Ri := RestrictTriples(R, s);
      var Fi := RestrictTriples(F, s);
      RestrictConsistent(R, F, L, s);
      var rest;
      T, rest := Mtt(s, Ri, Fi);
    }

    /** `_bipartition`: the split of a connected auxiliary graph chosen by
        the configured method, with its cost added to `total_cost`. Mincut
        takes Stoer-Wagner's cut; Karger the first of its splits of least
        cost; greedy and gradient walk the first of five runs of least
        cost, the runs being returned as `runs`. */
    method Bipartition(L: set<Leaf>, G: Graph)
      returns (A: set<Leaf>, B: set<Leaf>, best: int, ghost runs: seq<(nat, (set<Leaf>, set<Leaf>))>)
      requires OraclesOk() && |L| >= 3 && G.V == L && Connected(L, G.W.Keys)
      modifies this`totalCost
      ensures SplitsInTwo((A, B), L)
      ensures totalCost == old(totalCost) + best
      ensures bipartMethod == Mincut ==> (best, (A, B)) == stoerWagner(G)
      ensures bipartMethod == KargerCut ==> KeptFirst(best, (A, B), Costed(karger(G)))
      ensures bipartMethod == Greedy || bipartMethod == GradientWalk ==>
        |runs| == 5 && KeptFirst(best, (A, B), runs) &&
        forall k :: 0 <= k < 5 ==> RunEnd(runs[k], L, bipartMethod == GradientWalk)
    {
      runs := [];
      match bipartMethod {
        case Mincut =>
          var r := stoerWagner(G);
          best, A, B := r.0, r.1.0, r.1.1;
        case KargerCut =>
          var c;
          c, A, B := KargerMin(karger(G), L);
          best := c;
        case Greedy =>
          var c;
          c, A, B, runs := BestOfFive(L, false);
          best := c;
        case GradientWalk =>
          var c;
          c, A, B, runs := BestOfFive(L, true);
          best := c;
      }
      totalCost := totalCost + best;
    }

    /** Each split of `bps` paired with its cost. */
    ghost function Costed(bps: seq<(set<Leaf>, set<Leaf>)>): seq<(nat, (set<Leaf>, set<Leaf>))>
    {
      seq(|bps|, k requires 0 <= k < |bps| => (cost([bps[k].0, bps[k].1]), bps[k]))
    }

    /** A gradient walk's end on `L`: two sides covering `L`, no single
        movable leaf whose move costs less, and, for a symmetric cost
        function, the cost of the split itself. */
    ghost predicate WalkEnd(run: (nat, (set<Leaf>, set<Leaf>)), L: set<Leaf>)
    {
      && (forall x :: x in L && Movable(run.1.0, run.1.1, x) ==> run.0 <= cost(TrialArg(run.1.0, run.1.1, x)))
      && (Symmetric(cost) ==> run.0 == cost([run.1.0, run.1.1]))
    }

    /** The Karger branch of `_bipartition`: a yielded split replaces the
        best one only when its cost is strictly below, so the kept split is
        the first of least cost. */
    method KargerMin(bps: seq<(set<Leaf>, set<Leaf>)>, L: set<Leaf>) returns (c: nat, A: set<Leaf>, B: set<Leaf>)
      requires |bps| > 0 && forall k :: 0 <= k < |bps| ==> SplitsInTwo(bps[k], L)
      ensures KeptFirst(c, (A, B), Costed(bps)) && SplitsInTwo((A, B), L)
    {
      var bestCost: ExtCost := Inf;
      var bestBp := bps[0];
      ghost var at := 0;
      ghost var runs := Costed(bps);
      for k := 0 to |bps|
        invariant bestCost.Inf? <==> k == 0
        invariant k > 0 ==> FirstLeast(runs[..k], at) && runs[at] == (bestCost.n, bestBp)
      {
        var ck := cost([bps[k].0, bps[k].1]);
        FirstLeastSnoc(runs[..k], at, runs[k]);
        assert runs[..k + 1] == runs[..k] + [runs[k]];
        if Below(ck, bestCost) {
          bestCost, bestBp, at := Fin(ck), bps[k], k;
        }
      }
      assert runs[..|bps|] == runs;
      c, A, B := bestCost.n, bestBp.0, bestBp.1;
    }

    /** Five runs of greedy bipartition (`walk` false) or of the gradient
        walk from a random start (`walk` true) on `L`, keeping the first
        run of least cost. */
    method BestOfFive(L: set<Leaf>, walk: bool)
      returns (c: nat, A: set<Leaf>, B: set<Leaf>, ghost runs: seq<(nat, (set<Leaf>, set<Leaf>))>)
      requires |L| >= 3
      ensures |runs| == 5 && KeptFirst(c, (A, B), runs) && SplitsInTwo((A, B), L)
      ensures forall k :: 0 <= k < 5 ==> RunEnd(runs[k], L, walk)
    {
      var bestCost: ExtCost := Inf;
      var bestBp: (set<Leaf>, set<Leaf>) := ({}, {});
      ghost var at := 0;
      runs := [];
      for k := 0 to 5
        invariant |runs| == k && (bestCost.Inf? <==> k == 0)
        invariant forall j :: 0 <= j < k ==> RunEnd(runs[j], L, walk)
        invariant k > 0 ==> FirstLeast(runs, at) && runs[at] == (bestCost.n, bestBp)
      {
        var ck, bp := OneRun(L, walk);
        FirstLeastSnoc(runs, at, (ck, bp));
        runs := runs + [(ck, bp)];
        if Below(ck, bestCost) {
          bestCost, bestBp, at := Fin(ck), bp, k;
        }
      }
      c, A, B := bestCost.n, bestBp.0, bestBp.1;
    }

    /** One of the five runs: greedy bipartition, or a gradient walk. */
    method OneRun(L: set<Leaf>, walk: bool) returns (c: nat, bp: (set<Leaf>, set<Leaf>))
      requires |L| >= 3
      ensures RunEnd((c, bp), L, walk)
    {
      if walk {
        c, bp := OneWalk(L);
      } else {
        var r, steps := GreedyBipartitionRun(L, cost);
        c, bp := r.value.0, r.value.1;
      }
    }

    /** What a run of `_bipartition` ends with: a split of `L` in two
        non-empty sides; for greedy bipartition paired with its cost, for a
        gradient walk at a split no single move improves. */
    ghost predicate RunEnd(run: (nat, (set<Leaf>, set<Leaf>)), L: set<Leaf>, walk: bool)
    {
      && SplitsInTwo(run.1, L)
      && (!walk ==> run.0 == cost([run.1.0, run.1.1]))
      && (walk ==> WalkEnd(run, L))
    }

    /** One gradient walk from a random start on at least three leaves:
        both start sides are non-empty, so both result sides are, and the
        walk ends where no single move is cheaper. */
    method OneWalk(L: set<Leaf>) returns (c: nat, bp: (set<Leaf>, set<Leaf>))
      requires |L| >= 3
      ensures SplitsInTwo(bp, L) && WalkEnd((c, bp), L)
    {
      var r, start, costs := GradientWalkBipartition(L, cost, None);
      RandomStartSides(|L|);
      assert |start.0 + start.1| + |start.0 * start.1| == |start.0| + |start.1|;
      c, bp := r.value.0, r.value.1;
    }
  }

  /** Run `i` has the least cost of `runs` and every earlier run costs
      strictly more: the run a scan keeps when it replaces its best only on
      a strictly smaller cost. */
  predicate FirstLeast(runs: seq<(nat, (set<Leaf>, set<Leaf>))>, i: int)
  {
    && 0 <= i < |runs|
    && (forall j :: 0 <= j < i ==> runs[i].0 < runs[j].0)
    && (forall j :: i < j < |runs| ==> runs[i].0 <= runs[j].0)
  }

  /** A scan over one more run keeps its best when the new run is not
      strictly cheaper, and otherwise moves to the new run. */
  lemma FirstLeastSnoc(runs: seq<(nat, (set<Leaf>, set<Leaf>))>, at: int, run: (nat, (set<Leaf>, set<Leaf>)))
    ensures runs == [] ==> FirstLeast(runs + [run], 0)
    ensures FirstLeast(runs, at) && run.0 < runs[at].0 ==> FirstLeast(runs + [run], |runs|)
    ensures FirstLeast(runs, at) && runs[at].0 <= run.0 ==> FirstLeast(runs + [run], at)
  {
    var r := runs + [run];
    assert forall j :: 0 <= j < |runs| ==> r[j] == runs[j];
  }

  /** `c` and `bp` are the cost and split of the first least-cost run. */
  ghost predicate KeptFirst(c: int, bp: (set<Leaf>, set<Leaf>), runs: seq<(nat, (set<Leaf>, set<Leaf>))>)
  {
    exists i :: FirstLeast(runs, i) && runs[i].0 == c && runs[i].1 == bp
  }

  // ---------------------------------------------------------------------
  // Facts about partitions and the child loop
  // ---------------------------------------------------------------------

  /** Distinct triples over `L` need three leaves in `L`. */
  lemma TriplesNeedThree(R: seq<Triple>, L: set<Leaf>)
    requires Over(R, L) && AllDistinct(R) && R != []
    ensures |L| >= 3
  {
    assert R[0] in R;
    DistinctNeedsThree(R[0], L);
  }

  /** The trivial case of `_aho` and `_mtt`: on at most two leaves no
      triple has three distinct leaves, so the one- or two-leaf tree
      displays all (none) of them, and the input is consistent exactly when
      there is a leaf. */
  lemma SmallCase(T: Option<Tree>, R: seq<Triple>, F: seq<Triple>, L: set<Leaf>)
    requires |L| <= 2 && Over(R, L) && Over(F, L)
    requires T.Some? <==> L != {}
    requires T.Some? ==> Leaves(T.value) == L && Phylogenetic(T.value)
    ensures AllDistinct(R) ==> R == []
    ensures AllDistinct(F) ==> F == []
    ensures Consistent(R, F, L) ==> T.Some?
    ensures AllDistinct(R) && AllDistinct(F) ==> (T.Some? <==> Consistent(R, F, L))
  {
    if AllDistinct(R) && R != [] {
      TriplesNeedThree(R, L);
    }
    if AllDistinct(F) && F != [] {
      TriplesNeedThree(F, L);
    }
    ConsistentNonEmpty(R, F, L);
    if T.Some? && AllDistinct(R) && AllDistinct(F) {
      TreeConsistent(T.value, R, F, L);
    }
  }

  /** When the finest admissible partition has fewer than two blocks, so
      has every admissible partition. */
  lemma FinestFewer(P: set<set<Leaf>>, L: set<Leaf>, R: seq<Triple>, F: seq<Triple>)
    requires IsPartition(P, L) && |P| < 2
    requires forall Q :: Admissible(Q, L, R, F) ==> Refines(P, Q)
    ensures forall Q :: Admissible(Q, L, R, F) ==> |Q| < 2
  {
    forall Q | Admissible(Q, L, R, F)
      ensures |Q| < 2
    {
      if |Q| >= 2 {
        FinerHasTwo(P, Q, L);
      }
    }
  }

  /** Triples over `L` add no vertex to the Aho graph on `L`. */
  lemma PairLeavesWithin(R: seq<Triple>, L: set<Leaf>)
    requires Over(R, L)
    ensures L + PairLeaves(R) == L
  {
  }

  /** The split (A, B) as a partition of `L` into two blocks. */
  function TwoBlocks(A: set<Leaf>, B: set<Leaf>, L: set<Leaf>): (P: set<set<Leaf>>)
    requires SplitsInTwo((A, B), L)
    ensures IsPartition(P, L) && |P| >= 2
  {
    assert A != B by {
      var x := Pick(A);
      assert x !in B;
    }
    {A, B}
  }

  /** With two or more blocks, every block is smaller than `L`. */
  lemma PartSmaller(P: set<set<Leaf>>, L: set<Leaf>, s: set<Leaf>)
    requires IsPartition(P, L) && |P| >= 2 && s in P
    ensures |s| < |L|
  {
    assert |P - {s}| >= 1;
    var s' := Pick(P - {s});
    var x := Pick(s');
    assert x in L - s;
    assert L == s + (L - s);
    assert |s + (L - s)| + |s * (L - s)| == |s| + |L - s|;
  }

  /** Components of a graph with two or more blocks: the graph is not
      connected (the first block is a cut no edge crosses). */
  lemma ManyComponentsDisconnected(P: set<set<Leaf>>, L: set<Leaf>, E: set<Edge>)
    requires IsComponents(P, L, E) && |P| >= 2
    ensures !Connected(L, E)
  {
    var s := Pick(P);
    assert |P - {s}| >= 1;
    var s' := Pick(P - {s});
    var x := Pick(s');
    assert x in L && x !in s;
    forall e | e in E && EdgeIn(e, L)
      ensures (e.0 in s) == (e.1 in s)
    {
      var B :| B in P && EdgeIn(e, B);
      if B != s {
        assert B !! s;
      }
    }
    assert !Crosses(E, s, L);
  }

  /** Components of a non-empty graph with fewer than two blocks: the graph
      is connected. */
  lemma OneComponentConnected(P: set<set<Leaf>>, L: set<Leaf>, E: set<Edge>)
    requires IsComponents(P, L, E) && |P| < 2 && L != {}
    ensures Connected(L, E)
  {
    var x := Pick(L);
    var B :| B in P && x in B;
    assert |P - {B}| == 0;
    forall y | y in L
      ensures y in B
    {
      var B' :| B' in P && y in B';
      assert B' !in P - {B};
    }
    assert B == L;
  }

  /** The triples kept by a restriction keep their weights. */
  lemma RestrictionCovers(R: seq<Triple>, S: set<Leaf>, weighted: bool, tripleWeights: map<Triple, int>)
    requires WeightsCover(R, weighted, tripleWeights)
    ensures WeightsCover(Restriction(R, S), weighted, tripleWeights)
  {
    var Ri := Restriction(R, S);
    forall i | 0 <= i < |Ri|
      ensures Ri[i] in R
    {
      assert Ri[i] in Ri;
    }
  }

  /** Moving block `s` from the blocks to do to the blocks done. */
  lemma DoneStep(P: set<set<Leaf>>, todo: set<set<Leaf>>, done: set<set<Leaf>>, s: set<Leaf>)
    requires todo <= P && done == P - todo && s in todo
    ensures todo - {s} <= P && done + {s} == P - (todo - {s}) && s !in done
    ensures |done + {s}| == |done| + 1
  {
  }

  /** The blocks of a partition of `L` cover exactly `L`. */
  lemma FlattenPartition(P: set<set<Leaf>>, L: set<Leaf>)
    requires IsPartition(P, L)
    ensures Flatten(P) == L
  {
    forall x | x in L
      ensures x in Flatten(P)
    {
      var B :| B in P && x in B;
    }
  }

  /** The child built for block `s` extends the forest of the children so
      far, whose leaves are the blocks already done. */
  lemma ChildStep(P: set<set<Leaf>>, L: set<Leaf>, done: set<set<Leaf>>, s: set<Leaf>, children: seq<Tree>, c: Tree)
    requires IsPartition(P, L) && done <= P && s in P && s !in done
    requires Leaves(Inner(children)) == Flatten(done) && Forest(children)
    requires Leaves(c) == s && Phylogenetic(c)
    ensures Leaves(Inner(children + [c])) == Flatten(done + {s})
    ensures Forest(children + [c])
  {
    var t :| true;
    AddChild(children, c, t);
    assert Flatten(done + {s}) == Flatten(done) + s;
    forall x | x in Flatten(done)
      ensures x !in s
    {
      var B :| B in done && x in B;
      assert B !! s;
    }
    AddToForest(children, c);
  }

  /** BUILD's display argument for one child: a triple ab|c of `R` whose a
      lies in block `s` has b in `s` too (its edge stays inside a block); if
      c is outside, the child clusters it, otherwise it is among the
      child's triples and the child displays it. */
  lemma DisplayStep(P: set<set<Leaf>>, L: set<Leaf>, R: seq<Triple>, done: set<set<Leaf>>,
                    s: set<Leaf>, children: seq<Tree>, c: Tree, Ri: seq<Triple>)
    requires IsPartition(P, L) && EdgesInsideBlocks(P, AhoEdges(R)) && Over(R, L)
    requires s in P && Leaves(c) == s && Ri == Restriction(R, s)
    requires forall t :: t in Ri ==> Displays(c, t)
    requires forall t :: t in R && t.a in Flatten(done) ==> Splits(Inner(children), t)
    ensures forall t :: t in R && t.a in Flatten(done + {s}) ==> Splits(Inner(children + [c]), t)
  {
    assert Flatten(done + {s}) == Flatten(done) + s;
    forall t | t in R && t.a in Flatten(done + {s})
      ensures Splits(Inner(children + [c]), t)
    {
      AddChild(children, c, t);
      if t.a in s {
        var i :| 0 <= i < |R| && R[i] == t;
        var e := UEdge(t.a, t.b);
        assert e in AhoEdges(R);
        var B :| B in P && EdgeIn(e, B);
        assert t.a in B && t.b in B;
        assert B == s;
        if t.c in s {
          assert t in Ri;
        } else {
          assert Clusters(c, t);
        }
      }
    }
  }

  /** MTT's exclusion argument for one child: no forbidden triple is
      separated by the partition, so the child over block `s` neither
      clusters one nor splits one that lies outside its own forbidden
      triples. */
  lemma ForbiddenStep(P: set<set<Leaf>>, L: set<Leaf>, F: seq<Triple>, s: set<Leaf>,
                      children: seq<Tree>, c: Tree, Fi: seq<Triple>)
    requires IsPartition(P, L) && Over(F, L) && forall i :: 0 <= i < |F| ==> !Separated(P, L, F[i])
    requires s in P && Leaves(c) == s && Fi == Restriction(F, s)
    requires forall t :: t in Fi ==> !Displays(c, t)
    requires forall t :: t in F ==> !Splits(Inner(children), t)
    ensures forall t :: t in F ==> !Splits(Inner(children + [c]), t)
  {
    forall t | t in F
      ensures !Splits(Inner(children + [c]), t)
    {
      AddChild(children, c, t);
      SplitsCovers(c, t);
      if t.a in s && t.b in s {
        var i :| 0 <= i < |F| && F[i] == t;
        assert !Separated(P, L, F[i]);
        assert BlockOf(P, L, t.a) == s;
        assert t in Fi;
      }
    }
  }
}
