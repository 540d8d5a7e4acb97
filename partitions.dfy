/** Partitions of the original nodes 0..N-1 as the Louvain drivers hand
    them out, and the supernode member lists they are read from. A
    community dictionary is listed in ascending key order (the order its
    keys were inserted in, since labels are created as 0..n-1 and only
    deleted afterwards), and each community's supernodes in ascending order. */
module Partitions {
  import opened WeightedGraphs
  import opened Communities

  /** The members of `S` below `j`, in ascending order. */
  function Listing(S: set<nat>, j: nat): (s: seq<nat>)
    ensures forall x :: x in s <==> x in S && x < j
  {
    if j == 0 then [] else Listing(S, j - 1) + (if j - 1 in S then [j - 1] else [])
  }

  /** `P` is a partition of 0..N-1 into non-empty blocks. */
  ghost predicate IsPartitionOf(P: seq<set<nat>>, N: nat)
  {
    && (forall i :: 0 <= i < |P| ==> P[i] != {})
    && (forall i, y :: 0 <= i < |P| && y in P[i] ==> y < N)
    && (forall i, j, y :: 0 <= i < j < |P| && y in P[i] ==> y !in P[j])
    && (forall y :: 0 <= y < N ==> InSome(P, y))
  }

  /** Some block holds `y`. */
  ghost predicate InSome(P: seq<set<nat>>, y: nat)
  {
    exists i :: 0 <= i < |P| && y in P[i]
  }

  /** The set of the entries of each list. */
  function Sets(members: seq<seq<nat>>): (P: seq<set<nat>>)
    ensures |P| == |members|
    ensures forall s :: 0 <= s < |members| ==> forall y :: y in P[s] <==> y in members[s]
  {
    seq(|members|, s requires 0 <= s < |members| => set y | y in members[s])
  }

  /** `members[s]` lists the original nodes of supernode s, and every
      original node lies in exactly one supernode. */
  ghost predicate Supernodes(members: seq<seq<nat>>, N: nat)
  {
    IsPartitionOf(Sets(members), N)
  }

  /** The parts `list(communities.values())` passes on, each community's
      supernodes listed in ascending order. */
  function Parts(D: map<nat, set<nat>>, n: nat): (parts: seq<seq<nat>>)
    ensures |parts| == |Listing(D.Keys, n)|
    ensures forall j :: 0 <= j < |parts| ==> Listing(D.Keys, n)[j] in D
    ensures forall j :: 0 <= j < |parts| ==> parts[j] == Listing(D[Listing(D.Keys, n)[j]], n)
  {
    var K := Listing(D.Keys, n);
    seq(|K|, j requires 0 <= j < |K| => Listing(D[K[j]], n))
  }

  /** The original members of the supernodes of each part. */
  function FlattenAll(members: seq<seq<nat>>, parts: seq<seq<nat>>): (fs: seq<seq<nat>>)
    requires InRange(parts, |members|)
    ensures |fs| == |parts|
    ensures forall j :: 0 <= j < |parts| ==> fs[j] == Flatten(members, parts[j])
  {
    seq(|parts|, j requires 0 <= j < |parts| => Flatten(members, parts[j]))
  }

  /** `[{x} for x in nodes]` as member lists: every original node alone. */
  function Units(N: nat): (us: seq<seq<nat>>)
    ensures |us| == N && forall x :: 0 <= x < N ==> us[x] == [x]
  {
    seq(N, x => [x])
  }

  // ----- Lemmas -----

  /** The singletons partition the nodes, and each node is its own part. */
  lemma UnitsPartition(N: nat)
    ensures Supernodes(Units(N), N)
    ensures InRange(Units(N), N) && Covers(Units(N), N)
    ensures forall x :: 0 <= x < N ==> Sets(Units(N))[x] == {x}
  {
    var P := Sets(Units(N));
    forall i | 0 <= i < N
      ensures P[i] == {i}
    {
      assert i in P[i];
    }
    forall y | 0 <= y < N
      ensures InSome(P, y)
    {
      assert y in P[y];
    }
    forall x | 0 <= x < N
      ensures Owner(Units(N), x) >= 0
    {
      assert x in Units(N)[x];
    }
  }

  /** Flattening a part over the singleton member lists gives the part back. */
  lemma {:induction false} FlattenUnits(N: nat, part: seq<nat>)
    requires forall t :: 0 <= t < |part| ==> part[t] < N
    ensures Flatten(Units(N), part) == part
  {
    if part != [] {
      var last := |part| - 1;
      FlattenUnits(N, part[..last]);
      assert part[..last] + [part[last]] == part;
    }
  }

  /** The parts of a community map partition the supernodes 0..n-1. */
  lemma PartsPartition(D: map<nat, set<nat>>, lab: seq<nat>, n: nat)
    requires IsCommunityMap(D, lab, n)
    ensures IsPartitionOf(Sets(Parts(D, n)), n)
  {
    var parts := Parts(D, n);
    UnitsPartition(n);
    NextSupernodes(Units(n), n, D, lab, n);
    var fs := FlattenAll(Units(n), parts);
    forall j | 0 <= j < |parts|
      ensures fs[j] == parts[j]
    {
      FlattenUnits(n, parts[j]);
    }
    assert fs == parts;
  }

  /** Parts only list supernodes below `n`. */
  lemma PartsInRange(D: map<nat, set<nat>>, n: nat)
    ensures InRange(Parts(D, n), n)
  {
    var parts := Parts(D, n);
    forall j, t | 0 <= j < |parts| && 0 <= t < |parts[j]|
      ensures parts[j][t] < n
    {
      assert parts[j][t] in parts[j];
    }
  }

  /** Listings are strictly increasing, so they repeat nothing. */
  lemma {:induction false} ListingSorted(S: set<nat>, j: nat)
    ensures forall a, b :: 0 <= a < b < |Listing(S, j)| ==> Listing(S, j)[a] < Listing(S, j)[b]
  {
    if j > 0 {
      ListingSorted(S, j - 1);
      var L, M := Listing(S, j - 1), Listing(S, j);
      forall a, b | 0 <= a < b < |M|
        ensures M[a] < M[b]
      {
        assert M[a] == L[a];
        if b == |L| {
          assert L[a] in L;
        } else {
          assert M[b] == L[b];
        }
      }
    }
  }

  /** Listing all of a set below its bound lists as many entries as it has members. */
  lemma {:induction false} ListingSize(S: set<nat>, j: nat)
    ensures |Listing(S, j)| == |set x | x in S && x < j|
  {
    if j == 0 {
      assert (set x | x in S && x < j) == {};
    } else {
      ListingSize(S, j - 1);
      var A := set x | x in S && x < j - 1;
      if j - 1 in S {
        assert (set x | x in S && x < j) == A + {j - 1};
      } else {
        assert (set x | x in S && x < j) == A;
      }
    }
  }

  /** A map with keys below `n` lists exactly its number of keys. */
  lemma KeyCount(D: map<nat, set<nat>>, n: nat)
    requires forall C :: C in D ==> C < n
    ensures |Listing(D.Keys, n)| == |D|
  {
    ListingSize(D.Keys, n);
    assert (set x | x in D.Keys && x < n) == D.Keys;
  }

  /** The original nodes of a flattened part are those of its supernodes. */
  lemma {:induction false} FlattenMembers(members: seq<seq<nat>>, part: seq<nat>, y: nat)
    requires forall t :: 0 <= t < |part| ==> part[t] < |members|
    ensures y in Flatten(members, part) <==> exists t :: 0 <= t < |part| && y in members[part[t]]
  {
    if part != [] {
      var last := |part| - 1;
      FlattenMembers(members, part[..last], y);
      if y in Flatten(members, part) && y !in members[part[last]] {
        var t :| 0 <= t < last && y in members[part[..last][t]];
        assert y in members[part[t]];
      }
      if t :| 0 <= t < |part| && y in members[part[t]] {
        if t < last {
          assert part[..last][t] == part[t];
        }
      }
    }
  }

  /** The parts of a community map list every supernode once: they lie in
      range, and supernode s sits in the part of its own community. */
  lemma PartsOfCommunities(D: map<nat, set<nat>>, lab: seq<nat>, n: nat)
    requires IsCommunityMap(D, lab, n)
    ensures InRange(Parts(D, n), n) && Covers(Parts(D, n), n)
    ensures forall j, s :: 0 <= j < |Parts(D, n)| && s in Parts(D, n)[j] ==> lab[s] == Listing(D.Keys, n)[j]
    ensures forall j :: 0 <= j < |Parts(D, n)| ==> Parts(D, n)[j] != []
  {
    var K, parts := Listing(D.Keys, n), Parts(D, n);
    PartsInRange(D, n);
    forall s | 0 <= s < n
      ensures Owner(parts, s) >= 0
    {
      assert lab[s] in K;
      var j :| 0 <= j < |K| && K[j] == lab[s];
      assert s in parts[j];
    }
    forall j | 0 <= j < |parts|
      ensures parts[j] != []
    {
      var C := K[j];
      assert C in D;
      var s: nat :| s in D[C];
      InCommunity(D, lab, n, C, s);
      assert parts[j] == Listing(D[C], n);
      assert s in Listing(D[C], n);
    }
  }

  /** An original node lies in only one flattened part: its supernode is
      unique, and that supernode's community names a single part. */
  lemma {:induction false} OnePart(members: seq<seq<nat>>, N: nat, D: map<nat, set<nat>>, lab: seq<nat>, n: nat, i: nat, j: nat, y: nat)
    requires Supernodes(members, N) && |members| == n && IsCommunityMap(D, lab, n)
    requires InRange(Parts(D, n), n)
    requires i < |Parts(D, n)| && j < |Parts(D, n)|
    requires y in Flatten(members, Parts(D, n)[i]) && y in Flatten(members, Parts(D, n)[j])
    ensures i == j
  {
    var K, parts := Listing(D.Keys, n), Parts(D, n);
    PartsOfCommunities(D, lab, n);
    ListingSorted(D.Keys, n);
    var P := Sets(members);
    FlattenMembers(members, parts[i], y);
    FlattenMembers(members, parts[j], y);
    var t :| 0 <= t < |parts[i]| && y in members[parts[i][t]];
    var t' :| 0 <= t' < |parts[j]| && y in members[parts[j][t']];
    var s, s' := parts[i][t], parts[j][t'];
    assert y in P[s] && y in P[s'];
    assert s == s';
    assert K[i] == lab[s] == K[j];
  }

  /** Contracting the parts of a community map turns a supernode partition
      of 0..N-1 into the next one: each part's flattened members form one
      supernode, and distinct communities share no original node. */
  lemma NextSupernodes(members: seq<seq<nat>>, N: nat, D: map<nat, set<nat>>, lab: seq<nat>, n: nat)
    requires Supernodes(members, N) && |members| == n && IsCommunityMap(D, lab, n)
    ensures InRange(Parts(D, n), n)
    ensures Supernodes(FlattenAll(members, Parts(D, n)), N)
  {
    var parts := Parts(D, n);
    PartsOfCommunities(D, lab, n);
    var fs := FlattenAll(members, parts);
    var P, Q := Sets(members), Sets(fs);
    forall j | 0 <= j < |Q|
      ensures Q[j] != {}
    {
      var s := parts[j][0];
      var y :| y in P[s];
      FlattenMembers(members, parts[j], y);
      assert y in Q[j];
    }
    forall j, y | 0 <= j < |Q| && y in Q[j]
      ensures y < N
    {
      FlattenMembers(members, parts[j], y);
      var t :| 0 <= t < |parts[j]| && y in members[parts[j][t]];
      assert y in P[parts[j][t]];
    }
    forall i, j, y | 0 <= i < j < |Q| && y in Q[i]
      ensures y !in Q[j]
    {
      if y in Q[j] {
        OnePart(members, N, D, lab, n, i, j, y);
      }
    }
    forall y | 0 <= y < N
      ensures InSome(Q, y)
    {
      assert InSome(P, y);
      var s :| 0 <= s < |P| && y in P[s];
      var j := Owner(parts, s);
      FlattenMembers(members, parts[j], y);
      assert y in Q[j];
    }
  }
}
