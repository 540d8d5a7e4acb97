/** The unsatisfiability cost of a split, `unsatisfiability_cost` and
    `get_U1_U2_U3` of `BMGEditing.py`. A part V of the partition makes an
    arc or a non-arc (x, y), with x in V and y a node of another colour,
    unsatisfiable in three ways:
      U1  an arc leaving V towards a colour that V has,
      U2  a non-arc leaving V towards a colour that V lacks,
      U3  a non-arc inside V towards the only vertex of its colour in V.
    The cost of the partition counts these pairs, part by part; the other
    function lists them. */
module BMGEditing {
  import opened Wrappers

  type Vertex = int
  type Colour = int
  type Arc = (Vertex, Vertex)

  /** A networkx `DiGraph` with a `color` attribute: its nodes in
      insertion order, the colour of each node that has one, its arcs. */
  datatype ColouredDigraph = ColouredDigraph(nodes: seq<Vertex>, colour: map<Vertex, Colour>, arcs: set<Arc>)

  predicate Distinct<T(==)>(s: seq<T>)
  {
    forall i, j :: 0 <= i < j < |s| ==> s[i] != s[j]
  }

  /** networkx lists each node once, and only nodes carry attributes. */
  ghost predicate WellFormed(G: ColouredDigraph)
  {
    Distinct(G.nodes) && (forall v :: v in G.colour ==> v in G.nodes)
  }

  /** `G.nodes[v]['color']` succeeds for every `v` in `V`. */
  predicate Coloured(G: ColouredDigraph, V: seq<Vertex>)
  {
    forall i :: 0 <= i < |V| ==> V[i] in G.colour
  }

  /** The colour lookups made for part `V` succeed: those of its own
      vertices when counting colours, and, when it has a vertex to pair,
      those of every node of the graph. */
  predicate PartOk(G: ColouredDigraph, V: seq<Vertex>)
  {
    Coloured(G, V) && (|V| > 0 ==> Coloured(G, G.nodes))
  }

  /** Neither function raises `KeyError` on partition `P`. */
  predicate Succeeds(G: ColouredDigraph, P: seq<seq<Vertex>>)
  {
    forall i :: 0 <= i < |P| ==> PartOk(G, P[i])
  }

  /** The number of entries of `V` of colour `c` (an entry listed twice
      counts twice, as in the colour-counting loop). */
  function Count(G: ColouredDigraph, V: seq<Vertex>, c: Colour): nat
    requires Coloured(G, V)
  {
    if |V| == 0 then 0
    else Count(G, V[..|V| - 1], c) + (if G.colour[V[|V| - 1]] == c then 1 else 0)
  }

  /** `colors` is the colour-count dictionary of `V`: it holds exactly the
      colours present in `V`, each with its count. */
  ghost predicate Tallies(G: ColouredDigraph, V: seq<Vertex>, colors: map<Colour, nat>)
    requires Coloured(G, V)
  {
    forall c :: (c in colors <==> Count(G, V, c) > 0) && (c in colors ==> colors[c] == Count(G, V, c))
  }

  /** `colors.get(c)`, with `None` read as 0: the code only asks whether
      it is truthy and whether it equals 1, and 0 answers both as `None`. */
  function Get(colors: map<Colour, nat>, c: Colour): nat
  {
    if c in colors then colors[c] else 0
  }

  /** The colour-counting loop over one part. */
  method ColourCounts(G: ColouredDigraph, V: seq<Vertex>) returns (r: Result<map<Colour, nat>>)
    ensures r.Failure? <==> !Coloured(G, V)
    ensures r.Failure? ==> r.error == KeyError
    ensures r.Success? ==> Coloured(G, V) && Tallies(G, V, r.value)
  {
    var colors: map<Colour, nat> := map[];
    for j := 0 to |V|
      invariant Coloured(G, V[..j]) && Tallies(G, V[..j], colors)
    {
      var v := V[j];
      if v !in G.colour {
        return Failure(KeyError);
      }
      var c := G.colour[v];
      assert V[..j + 1] == V[..j] + [v];
      assert V[..j + 1][..j] == V[..j];
      if c !in colors {
        colors := colors[c := 1];
      } else {
        colors := colors[c := colors[c] + 1];
      }
    }
    assert V[..|V|] == V;
    return Success(colors);
  }

  /** `color_sets`: one colour-count dictionary per part, or `KeyError`
      for the first uncoloured vertex of some part. */
  method ColourSets(G: ColouredDigraph, P: seq<seq<Vertex>>) returns (r: Result<seq<map<Colour, nat>>>)
    ensures r.Failure? <==> exists i :: 0 <= i < |P| && !Coloured(G, P[i])
    ensures r.Failure? ==> r.error == KeyError
    ensures r.Success? ==> |r.value| == |P| && forall i :: 0 <= i < |P| ==> Coloured(G, P[i]) && Tallies(G, P[i], r.value[i])
  {
    var sets: seq<map<Colour, nat>> := [];
    for i := 0 to |P|
      invariant |sets| == i
      invariant forall j :: 0 <= j < i ==> Coloured(G, P[j]) && Tallies(G, P[j], sets[j])
    {
      var colors := ColourCounts(G, P[i]);
      if colors.Failure? {
        return Failure(colors.error);
      }
      sets := sets + [colors.value];
    }
    return Success(sets);
  }

  /** Which kind of unsatisfiable relation (x, y) is for part `V`, with x
      in V: the branches of the pair loop. */
  datatype Kind = Satisfiable | U1 | U2 | U3

  ghost function KindOf(G: ColouredDigraph, V: seq<Vertex>, x: Vertex, y: Vertex): Kind
    requires Coloured(G, V) && x in G.colour && y in G.colour
  {
    var c := G.colour[y];
    if G.colour[x] == c then Satisfiable
    else if y !in V then
      if (x, y) in G.arcs then (if Count(G, V, c) > 0 then U1 else Satisfiable)
      else if Count(G, V, c) == 0 then U2 else Satisfiable
    else if (x, y) !in G.arcs && Count(G, V, c) == 1 then U3
    else Satisfiable
  }

  /** The pairs of kind `k` that part `V` makes, as a set. */
  ghost function Unsat(G: ColouredDigraph, V: seq<Vertex>, k: Kind): set<Arc>
    requires PartOk(G, V)
  {
    set x, y | x in V && y in G.nodes && KindOf(G, V, x, y) == k :: (x, y)
  }

  /** The pairs of kind `k` found for `x` against the nodes `ns`, in the
      order of `ns`. */
  ghost function RowPairs(G: ColouredDigraph, V: seq<Vertex>, x: Vertex, ns: seq<Vertex>, k: Kind): seq<Arc>
    requires Coloured(G, V) && x in G.colour && Coloured(G, ns)
  {
    if |ns| == 0 then []
    else RowPairs(G, V, x, ns[..|ns| - 1], k) + (if KindOf(G, V, x, ns[|ns| - 1]) == k then [(x, ns[|ns| - 1])] else [])
  }

  /** The pairs of kind `k` found for the vertices `xs` of `V`, in order. */
  ghost function Pairs(G: ColouredDigraph, V: seq<Vertex>, xs: seq<Vertex>, k: Kind): seq<Arc>
    requires Coloured(G, V) && (forall i :: 0 <= i < |xs| ==> xs[i] in V) && (|xs| > 0 ==> Coloured(G, G.nodes))
  {
    if |xs| == 0 then []
    else Pairs(G, V, xs[..|xs| - 1], k) + RowPairs(G, V, xs[|xs| - 1], G.nodes, k)
  }

  /** The unsatisfiability cost of partition `P`: all pairs of the three
      kinds, part by part. */
  ghost function Cost(G: ColouredDigraph, P: seq<seq<Vertex>>): nat
    requires Succeeds(G, P)
  {
    if |P| == 0 then 0
    else
      var V := P[|P| - 1];
      Cost(G, P[..|P| - 1]) + |Unsat(G, V, U1)| + |Unsat(G, V, U2)| + |Unsat(G, V, U3)|
  }

  /** The pairs of kind `k` of partition `P`, part by part, with their
      multiplicity. */
  ghost function Bag(G: ColouredDigraph, P: seq<seq<Vertex>>, k: Kind): multiset<Arc>
    requires Succeeds(G, P)
  {
    if |P| == 0 then multiset{}
    else Bag(G, P[..|P| - 1], k) + multiset(Unsat(G, P[|P| - 1], k))
  }

  /** `xs` lists each vertex of `V` once. */
  predicate Enumerates(xs: seq<Vertex>, V: seq<Vertex>)
  {
    Distinct(xs) && (forall i :: 0 <= i < |xs| ==> xs[i] in V) && (forall i :: 0 <= i < |V| ==> V[i] in xs)
  }

  /** `V = set(V)` iterated in some order the model leaves open. */
  method Enumeration(V: seq<Vertex>) returns (xs: seq<Vertex>)
    ensures Enumerates(xs, V)
  {
    EnumerationExists(V);
    xs :| Enumerates(xs, V);
  }

  lemma {:induction false} EnumerationExists(V: seq<Vertex>)
    ensures exists xs :: Enumerates(xs, V)
  {
    if |V| == 0 {
      assert Enumerates([], V);
    } else {
      var front, last := V[..|V| - 1], V[|V| - 1];
      EnumerationExists(front);
      var ys :| Enumerates(ys, front);
      var zs := if last in ys then ys else ys + [last];
      forall i | 0 <= i < |V|
        ensures V[i] in zs
      {
        if i < |V| - 1 {
          assert V[i] == front[i];
        }
      }
      forall i | 0 <= i < |zs|
        ensures zs[i] in V
      {
        if i < |ys| {
          assert zs[i] == ys[i] && ys[i] in front;
        }
      }
      forall i, j | 0 <= i < j < |zs|
        ensures zs[i] != zs[j]
      {
        if j == |ys| {
          assert zs[i] == ys[i] && ys[i] in ys;
        }
      }
      assert Enumerates(zs, V);
    }
  }

  /** The pair loop of `unsatisfiability_cost` for one `x` of part `V`:
      the number of unsatisfiable pairs (x, y) over all nodes y. */
  method RowCost(G: ColouredDigraph, V: seq<Vertex>, colors: map<Colour, nat>, x: Vertex) returns (r: Result<nat>)
    requires Coloured(G, V) && Tallies(G, V, colors) && x in V
    ensures r.Failure? <==> !Coloured(G, G.nodes)
    ensures r.Failure? ==> r.error == KeyError
    ensures r.Success? ==>
      Coloured(G, G.nodes) && r.value == |RowPairs(G, V, x, G.nodes, U1)| + |RowPairs(G, V, x, G.nodes, U2)| + |RowPairs(G, V, x, G.nodes, U3)|
  {
    var cost := 0;
    for b := 0 to |G.nodes|
      invariant Coloured(G, G.nodes[..b])
      invariant cost == |RowPairs(G, V, x, G.nodes[..b], U1)| + |RowPairs(G, V, x, G.nodes[..b], U2)| + |RowPairs(G, V, x, G.nodes[..b], U3)|
    {
      var y := G.nodes[b];
      if y !in G.colour {
        return Failure(KeyError);
      }
      assert G.nodes[..b + 1] == G.nodes[..b] + [y];
      assert G.nodes[..b + 1][..b] == G.nodes[..b];
      var yColour := G.colour[y];
      if G.colour[x] == yColour {
        continue;
      }
      if y !in V {
        if (x, y) in G.arcs {
          if Get(colors, yColour) != 0 {
            cost := cost + 1;
          }
        } else if Get(colors, yColour) == 0 {
          cost := cost + 1;
        }
      } else if (x, y) !in G.arcs && Get(colors, yColour) == 1 {
        cost := cost + 1;
      }
    }
    assert G.nodes[..|G.nodes|] == G.nodes;
    return Success(cost);
  }

  /** The pair loop of `unsatisfiability_cost` over the vertices `xs` of
      part `V`. */
  method PartCost(G: ColouredDigraph, V: seq<Vertex>, colors: map<Colour, nat>, xs: seq<Vertex>) returns (r: Result<nat>)
    requires Coloured(G, V) && Tallies(G, V, colors) && (forall i :: 0 <= i < |xs| ==> xs[i] in V)
    ensures r.Failure? <==> |xs| > 0 && !Coloured(G, G.nodes)
    ensures r.Failure? ==> r.error == KeyError
    ensures r.Success? ==>
      (|xs| > 0 ==> Coloured(G, G.nodes)) && r.value == |Pairs(G, V, xs, U1)| + |Pairs(G, V, xs, U2)| + |Pairs(G, V, xs, U3)|
  {
    var cost := 0;
    for a := 0 to |xs|
      invariant a > 0 ==> Coloured(G, G.nodes)
      invariant cost == |Pairs(G, V, xs[..a], U1)| + |Pairs(G, V, xs[..a], U2)| + |Pairs(G, V, xs[..a], U3)|
    {
      var row := RowCost(G, V, colors, xs[a]);
      if row.Failure? {
        return Failure(row.error);
      }
      assert xs[..a + 1][..a] == xs[..a] && xs[..a + 1][a] == xs[a];
      cost := cost + row.value;
    }
    assert xs[..|xs|] == xs;
    return Success(cost);
  }

  /** `unsatisfiability_cost(partition, G)`: the number of unsatisfiable
      arcs and non-arcs the parts make, or `KeyError` when a colour
      lookup fails. */
  method UnsatisfiabilityCost(P: seq<seq<Vertex>>, G: ColouredDigraph) returns (r: Result<nat>)
    requires WellFormed(G)
    ensures r.Failure? <==> !Succeeds(G, P)
    ensures r.Failure? ==> r.error == KeyError
    ensures r.Success? ==> Succeeds(G, P) && r.value == Cost(G, P)
  {
    var sets := ColourSets(G, P);
    if sets.Failure? {
      return Failure(sets.error);
    }
    var colorSets := sets.value;
    var cost := 0;
    for i := 0 to |P|
      invariant Succeeds(G, P[..i]) && cost == Cost(G, P[..i])
    {
      var V := P[i];
      var xs := Enumeration(V);
      var part := PartCost(G, V, colorSets[i], xs);
      if part.Failure? {
        assert xs[0] in V;
        return Failure(part.error);
      }
      PartIsUnsat(G, V, xs);
      assert P[..i + 1][..i] == P[..i] && P[..i + 1][i] == V;
      cost := cost + part.value;
    }
    assert P[..|P|] == P;
    return Success(cost);
  }

  /** The pair loop of `get_U1_U2_U3` for one `x` of part `V`: the lists
      `u1`, `u2`, `u3` with the unsatisfiable pairs (x, y) of each kind
      appended, in node order. */
  method RowLists(G: ColouredDigraph, V: seq<Vertex>, colors: map<Colour, nat>, x: Vertex,
                  u1: seq<Arc>, u2: seq<Arc>, u3: seq<Arc>) returns (r: Result<(seq<Arc>, seq<Arc>, seq<Arc>)>)
    requires Coloured(G, V) && Tallies(G, V, colors) && x in V
    ensures r.Failure? <==> !Coloured(G, G.nodes)
    ensures r.Failure? ==> r.error == KeyError
    ensures r.Success? ==>
      Coloured(G, G.nodes) && r.value == (u1 + RowPairs(G, V, x, G.nodes, U1), u2 + RowPairs(G, V, x, G.nodes, U2), u3 + RowPairs(G, V, x, G.nodes, U3))
  {
    var l1, l2, l3 := u1, u2, u3;
    for b := 0 to |G.nodes|
      invariant Coloured(G, G.nodes[..b])
      invariant l1 == u1 + RowPairs(G, V, x, G.nodes[..b], U1)
      invariant l2 == u2 + RowPairs(G, V, x, G.nodes[..b], U2)
      invariant l3 == u3 + RowPairs(G, V, x, G.nodes[..b], U3)
    {
      var y := G.nodes[b];
      if y !in G.colour {
        return Failure(KeyError);
      }
      assert G.nodes[..b + 1] == G.nodes[..b] + [y];
      assert G.nodes[..b + 1][..b] == G.nodes[..b];
      var yColour := G.colour[y];
      if G.colour[x] == yColour {
        continue;
      }
      if y !in V {
        if (x, y) in G.arcs {
          if Get(colors, yColour) != 0 {
            l1 := l1 + [(x, y)];
          }
        } else if Get(colors, yColour) == 0 {
          l2 := l2 + [(x, y)];
        }
      } else if (x, y) !in G.arcs && Get(colors, yColour) == 1 {
        l3 := l3 + [(x, y)];
      }
    }
    assert G.nodes[..|G.nodes|] == G.nodes;
    return Success((l1, l2, l3));
  }

  /** The pair loop of `get_U1_U2_U3` over the vertices `xs` of part `V`. */
  method PartLists(G: ColouredDigraph, V: seq<Vertex>, colors: map<Colour, nat>, xs: seq<Vertex>,
                   u1: seq<Arc>, u2: seq<Arc>, u3: seq<Arc>) returns (r: Result<(seq<Arc>, seq<Arc>, seq<Arc>)>)
    requires Coloured(G, V) && Tallies(G, V, colors) && (forall i :: 0 <= i < |xs| ==> xs[i] in V)
    ensures r.Failure? <==> |xs| > 0 && !Coloured(G, G.nodes)
    ensures r.Failure? ==> r.error == KeyError
    ensures r.Success? ==>
      (|xs| > 0 ==> Coloured(G, G.nodes)) && r.value == (u1 + Pairs(G, V, xs, U1), u2 + Pairs(G, V, xs, U2), u3 + Pairs(G, V, xs, U3))
  {
    var l1, l2, l3 := u1, u2, u3;
    for a := 0 to |xs|
      invariant a > 0 ==> Coloured(G, G.nodes)
      invariant l1 == u1 + Pairs(G, V, xs[..a], U1)
      invariant l2 == u2 + Pairs(G, V, xs[..a], U2)
      invariant l3 == u3 + Pairs(G, V, xs[..a], U3)
    {
      var row := RowLists(G, V, colors, xs[a], l1, l2, l3);
      if row.Failure? {
        return Failure(row.error);
      }
      assert xs[..a + 1][..a] == xs[..a] && xs[..a + 1][a] == xs[a];
      l1, l2, l3 := row.value.0, row.value.1, row.value.2;
    }
    assert xs[..|xs|] == xs;
    return Success((l1, l2, l3));
  }

  /** `get_U1_U2_U3(partition, G)`: the unsatisfiable pairs of each kind,
      as many times as parts make them, or `KeyError` when a colour
      lookup fails. */
  method GetU1U2U3(P: seq<seq<Vertex>>, G: ColouredDigraph) returns (r: Result<(seq<Arc>, seq<Arc>, seq<Arc>)>)
    requires WellFormed(G)
    ensures r.Failure? <==> !Succeeds(G, P)
    ensures r.Failure? ==> r.error == KeyError
    ensures r.Success? ==>
      Succeeds(G, P) && multiset(r.value.0) == Bag(G, P, U1) && multiset(r.value.1) == Bag(G, P, U2) && multiset(r.value.2) == Bag(G, P, U3)
  {
    var sets := ColourSets(G, P);
    if sets.Failure? {
      return Failure(sets.error);
    }
    var colorSets := sets.value;
    var u1, u2, u3 := [], [], [];
    for i := 0 to |P|
      invariant Succeeds(G, P[..i])
      invariant multiset(u1) == Bag(G, P[..i], U1) && multiset(u2) == Bag(G, P[..i], U2) && multiset(u3) == Bag(G, P[..i], U3)
    {
      var V := P[i];
      var xs := Enumeration(V);
      var part := PartLists(G, V, colorSets[i], xs, u1, u2, u3);
      if part.Failure? {
        assert xs[0] in V;
        return Failure(part.error);
      }
      PartIsUnsat(G, V, xs);
      BagSnoc(G, P, i);
      u1, u2, u3 := part.value.0, part.value.1, part.value.2;
    }
    assert P[..|P|] == P;
    return Success((u1, u2, u3));
  }

  /** One more part adds its pairs of each kind to the bags. */
  lemma BagSnoc(G: ColouredDigraph, P: seq<seq<Vertex>>, i: nat)
    requires i < |P| && Succeeds(G, P[..i]) && PartOk(G, P[i])
    ensures Succeeds(G, P[..i + 1])
    ensures forall k :: Bag(G, P[..i + 1], k) == Bag(G, P[..i], k) + multiset(Unsat(G, P[i], k))
  {
    assert P[..i + 1][..i] == P[..i] && P[..i + 1][i] == P[i];
  }

  // ---------------------------------------------------------------
  // The pairs found by the loops are the pairs of each kind.
  // ---------------------------------------------------------------

  lemma {:induction false} RowMembers(G: ColouredDigraph, V: seq<Vertex>, x: Vertex, ns: seq<Vertex>, k: Kind)
    requires Coloured(G, V) && x in G.colour && Coloured(G, ns)
    ensures forall p :: p in RowPairs(G, V, x, ns, k) <==> p.0 == x && p.1 in ns && KindOf(G, V, x, p.1) == k
    ensures Distinct(ns) ==> Distinct(RowPairs(G, V, x, ns, k))
  {
    if |ns| > 0 {
      var front := ns[..|ns| - 1];
      RowMembers(G, V, x, front, k);
      assert ns == front + [ns[|ns| - 1]];
    }
  }

  lemma {:induction false} PairsMembers(G: ColouredDigraph, V: seq<Vertex>, xs: seq<Vertex>, k: Kind)
    requires Coloured(G, V) && (forall i :: 0 <= i < |xs| ==> xs[i] in V) && (|xs| > 0 ==> Coloured(G, G.nodes))
    ensures forall p :: p in Pairs(G, V, xs, k) <==> p.0 in xs && p.1 in G.nodes && KindOf(G, V, p.0, p.1) == k
    ensures Distinct(xs) && Distinct(G.nodes) ==> Distinct(Pairs(G, V, xs, k))
  {
    if |xs| > 0 {
      var front, x := xs[..|xs| - 1], xs[|xs| - 1];
      PairsMembers(G, V, front, k);
      RowMembers(G, V, x, G.nodes, k);
      assert xs == front + [x];
      if Distinct(xs) && Distinct(G.nodes) {
        var a, b := Pairs(G, V, front, k), RowPairs(G, V, x, G.nodes, k);
        forall i, j | 0 <= i < |a| && 0 <= j < |b|
          ensures a[i] != b[j]
        {
          assert a[i] in a && b[j] in b;
        }
        DistinctAppend(a, b);
      }
    }
  }

  lemma DistinctAppend(a: seq<Arc>, b: seq<Arc>)
    requires Distinct(a) && Distinct(b)
    requires forall i, j :: 0 <= i < |a| && 0 <= j < |b| ==> a[i] != b[j]
    ensures Distinct(a + b)
  {
    var s := a + b;
    forall i, j | 0 <= i < j < |s|
      ensures s[i] != s[j]
    {
      if j < |a| {
        assert s[i] == a[i] && s[j] == a[j];
      } else if i < |a| {
        assert s[i] == a[i] && s[j] == b[j - |a|];
      } else {
        assert s[i] == b[i - |a|] && s[j] == b[j - |a|];
      }
    }
  }

  /** A list without repetitions holds each member of its set once. */
  lemma {:induction false} DistinctBag(s: seq<Arc>, S: set<Arc>)
    requires Distinct(s) && (forall p :: p in s <==> p in S)
    ensures multiset(s) == multiset(S)
    decreases |s|
  {
    if |s| > 0 {
      var front, p := s[..|s| - 1], s[|s| - 1];
      assert s == front + [p];
      forall i | 0 <= i < |front|
        ensures front[i] != p
      {
        assert front[i] == s[i];
      }
      DistinctBag(front, S - {p});
      assert S == (S - {p}) + {p};
      assert multiset(S) == multiset(S - {p}) + multiset{p};
    } else {
      assert S == {};
    }
  }

  /** Listing the vertices of a part once each, in any order, the loops
      find each unsatisfiable pair of each kind exactly once. */
  lemma PairsAreUnsat(G: ColouredDigraph, V: seq<Vertex>, xs: seq<Vertex>, k: Kind)
    requires WellFormed(G) && PartOk(G, V) && (|xs| > 0 ==> Coloured(G, G.nodes))
    requires Enumerates(xs, V)
    ensures multiset(Pairs(G, V, xs, k)) == multiset(Unsat(G, V, k))
    ensures |Pairs(G, V, xs, k)| == |Unsat(G, V, k)|
  {
    PairsMembers(G, V, xs, k);
    var s, S := Pairs(G, V, xs, k), Unsat(G, V, k);
    forall p | p in s
      ensures p in S
    {
      assert p == (p.0, p.1);
    }
    DistinctBag(s, S);
    assert |multiset(s)| == |s| && |multiset(S)| == |S|;
  }

  lemma PartIsUnsat(G: ColouredDigraph, V: seq<Vertex>, xs: seq<Vertex>)
    requires WellFormed(G) && Coloured(G, V) && (|xs| > 0 ==> Coloured(G, G.nodes))
    requires Enumerates(xs, V)
    ensures PartOk(G, V)
    ensures forall k :: multiset(Pairs(G, V, xs, k)) == multiset(Unsat(G, V, k))
    ensures forall k :: |Pairs(G, V, xs, k)| == |Unsat(G, V, k)|
  {
    if |V| > 0 {
      assert V[0] in xs;
    }
    forall k
      ensures multiset(Pairs(G, V, xs, k)) == multiset(Unsat(G, V, k))
      ensures |Pairs(G, V, xs, k)| == |Unsat(G, V, k)|
    {
      PairsAreUnsat(G, V, xs, k);
    }
  }

  // ---------------------------------------------------------------
  // What the two functions promise of each other and of the kinds.
  // ---------------------------------------------------------------

  /** `unsatisfiability_cost(P, G)` is |U1| + |U2| + |U3| for the lists
      `get_U1_U2_U3(P, G)` returns. */
  lemma {:induction false} CostIsListSizes(G: ColouredDigraph, P: seq<seq<Vertex>>)
    requires Succeeds(G, P)
    ensures Cost(G, P) == |Bag(G, P, U1)| + |Bag(G, P, U2)| + |Bag(G, P, U3)|
  {
    if |P| > 0 {
      CostIsListSizes(G, P[..|P| - 1]);
      var V := P[|P| - 1];
      assert |multiset(Unsat(G, V, U1))| == |Unsat(G, V, U1)|;
      assert |multiset(Unsat(G, V, U2))| == |Unsat(G, V, U2)|;
      assert |multiset(Unsat(G, V, U3))| == |Unsat(G, V, U3)|;
    }
  }

  /** A colour counts as present in `V` (`colors.get(c)` truthy) iff some
      vertex of `V` has it. */
  lemma {:induction false} CountPresent(G: ColouredDigraph, V: seq<Vertex>, c: Colour)
    requires Coloured(G, V)
    ensures Count(G, V, c) > 0 <==> exists v :: v in V && G.colour[v] == c
  {
    if |V| > 0 {
      var front, last := V[..|V| - 1], V[|V| - 1];
      CountPresent(G, front, c);
      assert V == front + [last];
      if Count(G, front, c) > 0 {
        var v :| v in front && G.colour[v] == c;
        assert v in V;
      } else if G.colour[last] == c {
        assert last in V;
      } else {
        forall v | v in V
          ensures G.colour[v] != c
        {
          assert v in front || v == last;
        }
      }
    }
  }

  /** In a part listing each vertex once, a count of 1 for y's colour
      (`colors.get(y_color) == 1`) means y is the only vertex of its
      colour in the part. */
  lemma {:induction false} CountOne(G: ColouredDigraph, V: seq<Vertex>, y: Vertex)
    requires Coloured(G, V) && Distinct(V) && y in V
    ensures Count(G, V, G.colour[y]) == 1 <==> forall v :: v in V && G.colour[v] == G.colour[y] ==> v == y
  {
    var front, last := V[..|V| - 1], V[|V| - 1];
    assert V == front + [last];
    assert Distinct(front) by {
      forall i, j | 0 <= i < j < |front|
        ensures front[i] != front[j]
      {
        assert front[i] == V[i] && front[j] == V[j];
      }
    }
    forall i | 0 <= i < |front|
      ensures front[i] != last
    {
      assert front[i] == V[i];
    }
    if y == last {
      CountPresent(G, front, G.colour[y]);
    } else {
      CountOne(G, front, y);
      if G.colour[last] == G.colour[y] {
        assert Count(G, front, G.colour[y]) > 0 by {
          CountPresent(G, front, G.colour[y]);
        }
      }
    }
  }

  /** The three kinds as `get_U1_U2_U3` describes them, for x in part V
      and a node y: U1 are the arcs to a vertex outside V of a colour
      other than x's that V has, U2 the non-arcs to a vertex outside V of
      a colour V lacks, and U3 (when V lists each vertex once) the
      non-arcs to another vertex of V that is the only one of its colour
      there. Pairs of one colour are in none of them. */
  lemma UnsatMeaning(G: ColouredDigraph, V: seq<Vertex>, x: Vertex, y: Vertex)
    requires PartOk(G, V) && x in V && y in G.nodes
    ensures (x, y) in Unsat(G, V, U1) <==>
      y !in V && (x, y) in G.arcs && G.colour[x] != G.colour[y] && exists v :: v in V && G.colour[v] == G.colour[y]
    ensures (x, y) in Unsat(G, V, U2) <==>
      y !in V && (x, y) !in G.arcs && !exists v :: v in V && G.colour[v] == G.colour[y]
    ensures Distinct(V) ==> ((x, y) in Unsat(G, V, U3) <==>
      y in V && x != y && (x, y) !in G.arcs && forall v :: v in V && G.colour[v] == G.colour[y] ==> v == y)
  {
    CountPresent(G, V, G.colour[y]);
    if Distinct(V) && y in V {
      CountOne(G, V, y);
    }
    UnsatHas(G, V, x, y);
  }

  /** (x, y) is a pair of kind k exactly when `KindOf` says so. */
  lemma UnsatHas(G: ColouredDigraph, V: seq<Vertex>, x: Vertex, y: Vertex)
    requires PartOk(G, V) && x in V && y in G.nodes
    ensures forall k :: (x, y) in Unsat(G, V, k) <==> KindOf(G, V, x, y) == k
  {
  }
}
